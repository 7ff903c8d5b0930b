/**
 * The sequential logic of pinterest_gui.py: `parse_pins`, `_extract_pin_id`,
 * the collector and batch loops of `_scrape_worker_selenium` and the store
 * update of `_download_worker`.
 *
 * The browser, the network and the regex engine are parameters: the
 * `data-test-pin-id` matches of a page are a list of spans, the href and
 * aria-label searches inside a snippet are functions, and each collector round
 * is given by a feed of (parsed pins, scroll height).
 */
module Scraper {
  import opened Options
  import opened Text
  import opened PinStore
  import opened Download

  /** A pin as parse_pins reports it. */
  datatype Pin = Pin(pinId: string, href: string, title: Option<string>)

  /** The `pin_id`s of a list of pins. */
  function IdSet(ps: seq<Pin>): set<string>
  {
    set p | p in ps :: p.pinId
  }

  ghost predicate DistinctIds(ps: seq<Pin>)
  {
    forall i, j :: 0 <= i < |ps| && 0 <= j < |ps| && ps[i].pinId == ps[j].pinId ==> i == j
  }

  // ------------------------------------------------------------ parse_pins

  /** One `data-test-pin-id="(\d+)"` match: its span in the page and its group. */
  datatype PinMatch = PinMatch(start: nat, end: nat, pinId: string)

  /** What the regex engine guarantees of a match. */
  predicate MatchIn(html: string, m: PinMatch)
  {
    m.start <= m.end <= |html| && |m.pinId| > 0 && AllDigits(m.pinId)
  }

  /** Characters of context kept on each side of a match. */
  const ContextChars := 2000

  const SiteRoot := "https://www.pinterest.com"

  /** `max(0, m.start() - 2000)`. */
  function WindowStart(m: PinMatch): nat
  {
    if m.start < ContextChars then 0 else m.start - ContextChars
  }

  /** `min(len(html), m.end() + 2000)`. */
  function WindowEnd(html: string, m: PinMatch): nat
  {
    if |html| < m.end + ContextChars then |html| else m.end + ContextChars
  }

  /** `html[start:end]`; Python's slice is empty when start passes end. */
  function Snippet(html: string, m: PinMatch): string
  {
    var a, b := WindowStart(m), WindowEnd(html, m);
    if a <= b then html[a..b] else ""
  }

  /** The context window lies inside the page and around the match, and the
      snippet holds the match itself. */
  lemma WindowAroundMatch(html: string, m: PinMatch)
    requires m.start <= m.end <= |html|
    ensures 0 <= WindowStart(m) <= m.start <= m.end <= WindowEnd(html, m) <= |html|
    ensures var a := WindowStart(m);
      Snippet(html, m)[m.start - a..m.end - a] == html[m.start..m.end]
  {
    var a, b := WindowStart(m), WindowEnd(html, m);
    assert Snippet(html, m) == html[a..b];
    var snippet := html[a..b];
    var inner := snippet[m.start - a..m.end - a];
    assert |inner| == m.end - m.start;
    forall k | 0 <= k < |inner| ensures inner[k] == html[m.start..m.end][k] {
      assert inner[k] == snippet[m.start - a + k];
    }
  }

  /** The dict parse_pins builds for one match: the href found near it, or the
      canonical pin URL when there is none; the aria-label found near it. */
  function CandidatePin(html: string, m: PinMatch, hrefIn: string -> Option<string>, labelIn: string -> Option<string>): Pin
  {
    var snippet := Snippet(html, m);
    var href := match hrefIn(snippet)
      case Some(path) => SiteRoot + path
      case None => CanonicalUrl(m.pinId);
    Pin(m.pinId, href, labelIn(snippet))
  }

  /** The first list of parse_pins: one entry per match, in page order. */
  function MatchedPins(html: string, ms: seq<PinMatch>, hrefIn: string -> Option<string>, labelIn: string -> Option<string>): (ps: seq<Pin>)
    ensures |ps| == |ms|
    ensures forall i :: 0 <= i < |ms| ==> ps[i] == CandidatePin(html, ms[i], hrefIn, labelIn)
  {
    seq(|ms|, i requires 0 <= i < |ms| => CandidatePin(html, ms[i], hrefIn, labelIn))
  }

  /** The second loop of parse_pins: drop every pin whose id was seen before. */
  function Dedup(ps: seq<Pin>): seq<Pin>
  {
    if ps == [] then []
    else
      var kept := Dedup(ps[..|ps| - 1]);
      var last := ps[|ps| - 1];
      if last.pinId in IdSet(kept) then kept else kept + [last]
  }

  lemma IdSetAppend(ps: seq<Pin>, p: Pin)
    ensures IdSet(ps + [p]) == IdSet(ps) + {p.pinId}
  {
    assert forall q :: q in ps + [p] <==> q in ps || q == p;
  }

  /** No pin before position k has the id of pin k. */
  ghost predicate FirstAt(ps: seq<Pin>, k: nat)
    requires k < |ps|
  {
    forall j :: 0 <= j < k ==> ps[j].pinId != ps[k].pinId
  }

  /** Reference reading of "keep the first occurrence of each id": the
      subsequence of the pins that are first of their id. */
  ghost function FirstOccurrences(ps: seq<Pin>): seq<Pin>
  {
    if ps == [] then []
    else FirstOccurrences(ps[..|ps| - 1]) + (if FirstAt(ps, |ps| - 1) then [ps[|ps| - 1]] else [])
  }

  /** Dedup keeps exactly the first pin of each id and no other. */
  lemma {:induction false} DedupSpec(ps: seq<Pin>)
    ensures DistinctIds(Dedup(ps))
    ensures IdSet(Dedup(ps)) == IdSet(ps)
    ensures Dedup(ps) == FirstOccurrences(ps)
  {
    if ps != [] {
      var front := ps[..|ps| - 1];
      var last := ps[|ps| - 1];
      DedupSpec(front);
      assert ps == front + [last];
      var kept := Dedup(front);
      assert last.pinId in IdSet(kept) <==> !FirstAt(ps, |ps| - 1) by {
        if last.pinId in IdSet(kept) {
          var p :| p in front && p.pinId == last.pinId;
          var j :| 0 <= j < |front| && front[j] == p;
          assert ps[j].pinId == ps[|ps| - 1].pinId;
        }
        if !FirstAt(ps, |ps| - 1) {
          var j :| 0 <= j < |ps| - 1 && ps[j].pinId == last.pinId;
          assert front[j] in front;
        }
      }
      IdSetAppend(front, last);
      IdSetAppend(kept, last);
      if last.pinId !in IdSet(kept) {
        var d := kept + [last];
        assert DistinctIds(d);
      }
    }
  }

  /** The ids of the matched pins are the ids of the matches. */
  lemma MatchedPinIds(html: string, ms: seq<PinMatch>, hrefIn: string -> Option<string>, labelIn: string -> Option<string>)
    ensures IdSet(MatchedPins(html, ms, hrefIn, labelIn)) == set i | 0 <= i < |ms| :: ms[i].pinId
  {
    var ps := MatchedPins(html, ms, hrefIn, labelIn);
    forall x | x in IdSet(ps) ensures x in set i | 0 <= i < |ms| :: ms[i].pinId {
      var p :| p in ps && p.pinId == x;
      var i :| 0 <= i < |ps| && ps[i] == p;
      assert ms[i].pinId == x;
    }
    forall i | 0 <= i < |ms| ensures ms[i].pinId in IdSet(ps) {
      assert ps[i] in ps;
    }
  }

  /** parse_pins: one pin per distinct matched id, the first match of each id,
      in page order. */
  method ParsePins(html: string, matches: seq<PinMatch>, hrefIn: string -> Option<string>, labelIn: string -> Option<string>)
    returns (unique: seq<Pin>)
    ensures unique == FirstOccurrences(MatchedPins(html, matches, hrefIn, labelIn))
    ensures DistinctIds(unique)
    ensures IdSet(unique) == set i | 0 <= i < |matches| :: matches[i].pinId
  {
    var pins: seq<Pin> := [];
    for i := 0 to |matches|
      invariant pins == MatchedPins(html, matches[..i], hrefIn, labelIn)
    {
      MatchedPinsStep(html, matches, i, hrefIn, labelIn);
      pins := pins + [CandidatePin(html, matches[i], hrefIn, labelIn)];
    }
    assert matches[..|matches|] == matches;
    var seen: set<string> := {};
    unique := [];
    for i := 0 to |pins|
      invariant unique == Dedup(pins[..i])
      invariant seen == IdSet(unique)
    {
      DedupStep(pins, i);
      if pins[i].pinId in seen {
        continue;
      }
      seen := seen + {pins[i].pinId};
      IdSetAppend(unique, pins[i]);
      unique := unique + [pins[i]];
    }
    assert pins[..|pins|] == pins;
    DedupSpec(pins);
    MatchedPinIds(html, matches, hrefIn, labelIn);
  }

  lemma MatchedPinsStep(html: string, ms: seq<PinMatch>, i: nat, hrefIn: string -> Option<string>, labelIn: string -> Option<string>)
    requires i < |ms|
    ensures MatchedPins(html, ms[..i + 1], hrefIn, labelIn)
         == MatchedPins(html, ms[..i], hrefIn, labelIn) + [CandidatePin(html, ms[i], hrefIn, labelIn)]
  {
    var ps := MatchedPins(html, ms[..i + 1], hrefIn, labelIn);
    var qs := MatchedPins(html, ms[..i], hrefIn, labelIn) + [CandidatePin(html, ms[i], hrefIn, labelIn)];
    assert forall k :: 0 <= k < i + 1 ==> ps[k] == qs[k];
  }

  lemma DedupStep(ps: seq<Pin>, i: nat)
    requires i < |ps|
    ensures Dedup(ps[..i + 1]) ==
      if ps[i].pinId in IdSet(Dedup(ps[..i])) then Dedup(ps[..i]) else Dedup(ps[..i]) + [ps[i]]
  {
    assert ps[..i + 1][..i] == ps[..i];
  }

  /** When no href is found near a match, the pin's href is its canonical URL,
      from which _extract_pin_id recovers the id. */
  lemma DefaultHref(html: string, m: PinMatch, hrefIn: string -> Option<string>, labelIn: string -> Option<string>)
    requires MatchIn(html, m)
    requires hrefIn(Snippet(html, m)).None?
    ensures CandidatePin(html, m, hrefIn, labelIn).href == CanonicalUrl(m.pinId)
    ensures ExtractPinId(CandidatePin(html, m, hrefIn, labelIn).href) == m.pinId
  {
    ExtractFromCanonical(m.pinId);
  }

  // -------------------------------------------------------- _extract_pin_id

  /** The length of the run of digits starting at i. */
  function DigitRun(s: string, i: nat): (n: nat)
    requires i <= |s|
    ensures i + n <= |s|
    ensures forall k :: i <= k < i + n ==> IsDigit(s[k])
    ensures i + n < |s| ==> !IsDigit(s[i + n])
    decreases |s| - i
  {
    if i < |s| && IsDigit(s[i]) then 1 + DigitRun(s, i + 1) else 0
  }

  /** `/pin/(\d+)/` matches at position i: the greedy digit run can only be
      followed by '/' if the whole run is. */
  predicate PinPathAt(s: string, i: nat)
  {
    && i + 5 <= |s| && s[i..i + 5] == "/pin/"
    && var n := DigitRun(s, i + 5);
       n > 0 && i + 5 + n < |s| && s[i + 5 + n] == '/'
  }

  /** `re.search`: the leftmost match position at or after `from`. */
  function SearchPinPath(s: string, from: nat): (r: Option<nat>)
    requires from <= |s|
    ensures r.Some? ==> from <= r.value <= |s| && PinPathAt(s, r.value)
    ensures r.Some? ==> forall j :: from <= j < r.value ==> !PinPathAt(s, j)
    ensures r.None? ==> forall j :: from <= j <= |s| ==> !PinPathAt(s, j)
    decreases |s| - from
  {
    if PinPathAt(s, from) then Some(from)
    else if from == |s| then None
    else SearchPinPath(s, from + 1)
  }

  /** _extract_pin_id: the digits of the first `/pin/<digits>/`, or else every
      digit of the input. */
  function ExtractPinId(pin: string): (id: string)
    ensures AllDigits(id)
    ensures SearchPinPath(pin, 0).None? ==> id == Digits(pin)
    ensures SearchPinPath(pin, 0).Some? ==>
      var j := SearchPinPath(pin, 0).value;
      |id| > 0 && OccursAt("/pin/" + id + "/", pin, j)
  {
    match SearchPinPath(pin, 0)
    case Some(j) =>
      PinPathGroup(pin, j);
      pin[j + 5..j + 5 + DigitRun(pin, j + 5)]
    case None => Digits(pin)
  }

  /** The group of a match at j is a non-empty digit string framed by
      "/pin/" and "/". */
  lemma PinPathGroup(s: string, j: nat)
    requires PinPathAt(s, j)
    ensures var id := s[j + 5..j + 5 + DigitRun(s, j + 5)];
      |id| > 0 && AllDigits(id) && OccursAt("/pin/" + id + "/", s, j)
  {
    var n := DigitRun(s, j + 5);
    var id := s[j + 5..j + 5 + n];
    assert s[j..j + 5 + n + 1] == s[j..j + 5] + id + [s[j + 5 + n]];
  }

  lemma {:induction false} DigitRunOf(s: string, i: nat, n: nat)
    requires i + n <= |s|
    requires forall k :: i <= k < i + n ==> IsDigit(s[k])
    requires i + n < |s| ==> !IsDigit(s[i + n])
    ensures DigitRun(s, i) == n
    decreases n
  {
    if n > 0 {
      DigitRunOf(s, i + 1, n - 1);
    }
  }

  /** No position of the fixed prefix starts "/pin/" except the last '/'. */
  lemma NoPinPathInHost(s: string, k: nat)
    requires StartsWith(s, PinPrefix)
    requires k < 25
    ensures !PinPathAt(s, k)
  {
    var prefix := PinPrefix;
    assert s[..30] == prefix;
    assert s[k] == prefix[k] && s[k + 1] == prefix[k + 1];
    assert prefix[k] != '/' || prefix[k + 1] != 'p';
  }

  /** _extract_pin_id recovers the id from its canonical URL. */
  lemma ExtractFromCanonical(pinId: string)
    requires |pinId| > 0 && AllDigits(pinId)
    ensures ExtractPinId(CanonicalUrl(pinId)) == pinId
  {
    var s := CanonicalUrl(pinId);
    assert |s| == 31 + |pinId|;
    assert StartsWith(s, PinPrefix);
    forall k: nat | k < 25 ensures !PinPathAt(s, k) {
      NoPinPathInHost(s, k);
    }
    assert s[25..30] == "/pin/";
    assert s[30..30 + |pinId|] == pinId;
    DigitRunOf(s, 30, |pinId|);
    assert PinPathAt(s, 25);
    assert SearchPinPath(s, 0) == Some(25);
  }

  /** A bare numeric id is its own pin id. */
  lemma ExtractFromDigits(pinId: string)
    requires AllDigits(pinId)
    ensures ExtractPinId(pinId) == pinId
  {
    DigitsOfDigits(pinId);
  }

  // ------------------------------------------------------------ collector

  /** What one round of the browser loop observes: the parsed pins of the
      page and the scroll height after scrolling. */
  datatype Round = Round(pins: seq<Pin>, height: int)

  /** The collector's four loop variables. */
  datatype Collector = Collector(seenIds: set<string>, collected: seq<Pin>, idleRounds: nat, lastHeight: int)

  const MaxRounds := 60

  const Start := Collector({}, [], 0, 0)

  /** The inner `for p in pins` loop: append each unseen pin, stop once `n`
      pins are collected. */
  function Absorb(seen: set<string>, collected: seq<Pin>, pins: seq<Pin>, n: int): (set<string>, seq<Pin>)
    decreases |pins|
  {
    if pins == [] then (seen, collected)
    else if pins[0].pinId in seen then Absorb(seen, collected, pins[1..], n)
    else
      var seen', collected' := seen + {pins[0].pinId}, collected + [pins[0]];
      if |collected'| >= n then (seen', collected') else Absorb(seen', collected', pins[1..], n)
  }

  /** One round of the `while` loop. */
  function Step(c: Collector, r: Round, n: int): Collector
  {
    var absorbed := Absorb(c.seenIds, c.collected, r.pins, n);
    var added := |absorbed.1| - |c.collected|;
    var idle := if added == 0 then c.idleRounds + 1 else 0;
    Collector(absorbed.0, absorbed.1, if r.height == c.lastHeight then idle + 1 else idle, r.height)
  }

  /** The loop condition. */
  predicate Running(c: Collector, n: int)
  {
    |c.collected| < n && c.idleRounds < MaxRounds
  }

  /** The state after k rounds of the feed. */
  function After(feed: nat -> Round, n: int, k: nat): Collector
  {
    if k == 0 then Start else Step(After(feed, n, k - 1), feed(k - 1), n)
  }

  /** The collector's invariant: capped at max(n, 0), no id twice, and
      `seen_ids` is exactly the ids collected. */
  ghost predicate CollectorInv(c: Collector, n: int)
  {
    && |c.collected| <= (if n > 0 then n else 0)
    && DistinctIds(c.collected)
    && c.seenIds == IdSet(c.collected)
  }

  /** The pins of `ps` whose id is not in `seen`, in order. */
  function Unseen(ps: seq<Pin>, seen: set<string>): seq<Pin>
  {
    if ps == [] then []
    else Unseen(ps[..|ps| - 1], seen) + (if ps[|ps| - 1].pinId in seen then [] else [ps[|ps| - 1]])
  }

  lemma UnseenSnoc(ps: seq<Pin>, x: Pin, seen: set<string>)
    ensures Unseen(ps + [x], seen) == Unseen(ps, seen) + (if x.pinId in seen then [] else [x])
  {
    assert (ps + [x])[..|ps|] == ps;
  }

  lemma {:induction false} IdSetUnseen(ps: seq<Pin>, seen: set<string>)
    ensures IdSet(Unseen(ps, seen)) == IdSet(ps) - seen
  {
    if ps != [] {
      var front, x := ps[..|ps| - 1], ps[|ps| - 1];
      assert ps == front + [x];
      IdSetUnseen(front, seen);
      IdSetAppend(front, x);
      if x.pinId in seen {
        assert Unseen(ps, seen) == Unseen(front, seen);
      } else {
        assert Unseen(ps, seen) == Unseen(front, seen) + [x];
        IdSetAppend(Unseen(front, seen), x);
      }
    }
  }

  lemma IdSetCons(p: Pin, ps: seq<Pin>)
    ensures IdSet([p] + ps) == {p.pinId} + IdSet(ps)
  {
    assert forall q :: q in [p] + ps <==> q == p || q in ps;
  }

  /** A pin appended to a list is the first of its id exactly when the list
      does not hold that id. */
  lemma FirstOccurrencesSnoc(ps: seq<Pin>, x: Pin)
    ensures FirstOccurrences(ps + [x]) == FirstOccurrences(ps) + (if x.pinId in IdSet(ps) then [] else [x])
  {
    var qs := ps + [x];
    assert qs[..|ps|] == ps;
    if x.pinId in IdSet(ps) {
      var p :| p in ps && p.pinId == x.pinId;
      var j :| 0 <= j < |ps| && ps[j] == p;
      assert qs[j].pinId == qs[|ps|].pinId;
    } else {
      forall j | 0 <= j < |ps| ensures qs[j].pinId != qs[|ps|].pinId {
        assert ps[j] in ps;
      }
    }
  }

  lemma FirstUnseenSnoc(ps: seq<Pin>, x: Pin, seen: set<string>)
    ensures FirstOccurrences(Unseen(ps + [x], seen))
         == FirstOccurrences(Unseen(ps, seen)) + (if x.pinId in seen || x.pinId in IdSet(ps) then [] else [x])
  {
    UnseenSnoc(ps, x, seen);
    if x.pinId in seen {
      assert Unseen(ps + [x], seen) == Unseen(ps, seen);
    } else {
      IdSetUnseen(ps, seen);
      FirstOccurrencesSnoc(Unseen(ps, seen), x);
    }
  }

  /** The first occurrences of the unseen pins, read from the front: a seen
      pin is skipped, an unseen one is taken and its id joins `seen`. */
  lemma {:induction false} FirstUnseenCons(p: Pin, rest: seq<Pin>, seen: set<string>)
    ensures FirstOccurrences(Unseen([p] + rest, seen)) ==
      if p.pinId in seen then FirstOccurrences(Unseen(rest, seen))
      else [p] + FirstOccurrences(Unseen(rest, seen + {p.pinId}))
    decreases |rest|
  {
    if rest == [] {
      UnseenSnoc([], p, seen);
      FirstOccurrencesSnoc([], p);
      assert [p] + rest == [] + [p];
    } else {
      var front, x := rest[..|rest| - 1], rest[|rest| - 1];
      assert rest == front + [x];
      FirstUnseenCons(p, front, seen);
      if p.pinId in seen {
        FirstUnseenConsSeen(p, front, x, seen);
      } else {
        FirstUnseenConsUnseen(p, front, x, seen);
      }
    }
  }

  /** The step of FirstUnseenCons for a seen first pin. */
  lemma FirstUnseenConsSeen(p: Pin, front: seq<Pin>, x: Pin, seen: set<string>)
    requires p.pinId in seen
    requires FirstOccurrences(Unseen([p] + front, seen)) == FirstOccurrences(Unseen(front, seen))
    ensures FirstOccurrences(Unseen([p] + (front + [x]), seen)) == FirstOccurrences(Unseen(front + [x], seen))
  {
    var whole := [p] + front;
    assert [p] + (front + [x]) == whole + [x];
    FirstUnseenSnoc(whole, x, seen);
    FirstUnseenSnoc(front, x, seen);
    IdSetCons(p, front);
  }

  /** The step of FirstUnseenCons for an unseen first pin. */
  lemma FirstUnseenConsUnseen(p: Pin, front: seq<Pin>, x: Pin, seen: set<string>)
    requires p.pinId !in seen
    requires FirstOccurrences(Unseen([p] + front, seen)) == [p] + FirstOccurrences(Unseen(front, seen + {p.pinId}))
    ensures FirstOccurrences(Unseen([p] + (front + [x]), seen))
         == [p] + FirstOccurrences(Unseen(front + [x], seen + {p.pinId}))
  {
    var whole := [p] + front;
    var seen' := seen + {p.pinId};
    var rest := FirstOccurrences(Unseen(front, seen'));
    var last := if x.pinId in seen' || x.pinId in IdSet(front) then [] else [x];
    IdSetCons(p, front);
    assert (x.pinId in seen || x.pinId in IdSet(whole)) == (x.pinId in seen' || x.pinId in IdSet(front));
    Regroup([p], front, [x]);
    Regroup([p], rest, last);
    FirstUnseenSnoc(whole, x, seen);
    FirstUnseenSnoc(front, x, seen');
  }

  lemma Regroup<T>(a: seq<T>, b: seq<T>, c: seq<T>)
    ensures a + (b + c) == (a + b) + c
  {
  }

  /** The first occurrences of the unseen pins are pins of the list, none of
      them seen. */
  lemma FirstUnseenFrom(ps: seq<Pin>, seen: set<string>)
    ensures forall q :: q in FirstOccurrences(Unseen(ps, seen)) ==> q in ps && q.pinId !in seen
  {
    var u := Unseen(ps, seen);
    DedupSpec(u);
    IdSetUnseen(ps, seen);
    forall q | q in FirstOccurrences(u) ensures q in ps && q.pinId !in seen {
      FirstOccurrencesSub(u, q);
      UnseenSub(ps, seen, q);
    }
  }

  lemma {:induction false} FirstOccurrencesSub(ps: seq<Pin>, q: Pin)
    requires q in FirstOccurrences(ps)
    ensures q in ps
  {
    var front := ps[..|ps| - 1];
    if q in FirstOccurrences(front) {
      FirstOccurrencesSub(front, q);
      assert ps == front + [ps[|ps| - 1]];
    }
  }

  lemma {:induction false} UnseenSub(ps: seq<Pin>, seen: set<string>, q: Pin)
    requires q in Unseen(ps, seen)
    ensures q in ps && q.pinId !in seen
  {
    var front := ps[..|ps| - 1];
    assert ps == front + [ps[|ps| - 1]];
    if q in Unseen(front, seen) {
      UnseenSub(front, seen, q);
    }
  }

  /** The inner loop appends the first occurrences of the unseen pins, in page
      order, cut once `n` pins are collected. */
  lemma {:induction false} AbsorbFirstUnseen(seen: set<string>, collected: seq<Pin>, pins: seq<Pin>, n: int)
    requires |collected| < n
    ensures var collected', firsts := Absorb(seen, collected, pins, n).1, FirstOccurrences(Unseen(pins, seen));
      && |collected'| - |collected| == (if |firsts| < n - |collected| then |firsts| else n - |collected|)
      && collected' == collected + firsts[..|collected'| - |collected|]
    decreases |pins|
  {
    if pins == [] {
    } else {
      var p, rest := pins[0], pins[1..];
      assert pins == [p] + rest;
      FirstUnseenCons(p, rest, seen);
      if p.pinId !in seen {
        var collected1 := collected + [p];
        if |collected1| < n {
          AbsorbFirstUnseen(seen + {p.pinId}, collected1, rest, n);
          AbsorbTakeStep(seen, collected, p, rest, n);
        }
      } else {
        AbsorbFirstUnseen(seen, collected, rest, n);
      }
    }
  }

  /** An unseen first pin is taken, and the rest continue from there. */
  lemma AbsorbTakeStep(seen: set<string>, collected: seq<Pin>, p: Pin, rest: seq<Pin>, n: int)
    requires p.pinId !in seen && |collected| + 1 < n
    requires var collected', firsts := Absorb(seen + {p.pinId}, collected + [p], rest, n).1,
               FirstOccurrences(Unseen(rest, seen + {p.pinId}));
      && |collected'| - |collected| - 1 == (if |firsts| < n - |collected| - 1 then |firsts| else n - |collected| - 1)
      && collected' == collected + [p] + firsts[..|collected'| - |collected| - 1]
    ensures var collected', firsts := Absorb(seen + {p.pinId}, collected + [p], rest, n).1,
              [p] + FirstOccurrences(Unseen(rest, seen + {p.pinId}));
      && |collected'| - |collected| == (if |firsts| < n - |collected| then |firsts| else n - |collected|)
      && collected' == collected + firsts[..|collected'| - |collected|]
  {
    var firsts := FirstOccurrences(Unseen(rest, seen + {p.pinId}));
    var k := |Absorb(seen + {p.pinId}, collected + [p], rest, n).1| - |collected| - 1;
    assert ([p] + firsts)[..k + 1] == [p] + firsts[..k];
  }

  /** The inner loop keeps the invariant and only appends: exactly the first
      occurrence of each unseen id, in page order, up to `n` in all. */
  lemma AbsorbSpec(seen: set<string>, collected: seq<Pin>, pins: seq<Pin>, n: int)
    requires seen == IdSet(collected) && DistinctIds(collected) && |collected| < n
    ensures var (seen', collected') := Absorb(seen, collected, pins, n);
      var firsts := FirstOccurrences(Unseen(pins, seen));
      && seen' == IdSet(collected') && DistinctIds(collected') && |collected'| <= n
      && |collected| <= |collected'| && collected'[..|collected|] == collected
      && |collected'| - |collected| == (if |firsts| < n - |collected| then |firsts| else n - |collected|)
      && collected'[|collected|..] == firsts[..|collected'| - |collected|]
      && (forall i :: |collected| <= i < |collected'| ==> collected'[i] in pins)
      && (|collected'| == |collected| <==> forall p :: p in pins ==> p.pinId in seen)
      && (|collected'| < n ==> forall p :: p in pins ==> p.pinId in seen')
  {
    AbsorbInv(seen, collected, pins, n);
    AbsorbFirstUnseen(seen, collected, pins, n);
    FirstUnseenFrom(pins, seen);
    var collected' := Absorb(seen, collected, pins, n).1;
    var firsts := FirstOccurrences(Unseen(pins, seen));
    forall i | |collected| <= i < |collected'| ensures collected'[i] in pins {
      assert collected'[i] == firsts[i - |collected|];
      assert firsts[i - |collected|] in firsts;
    }
  }

  /** The invariant half of AbsorbSpec, by induction over the pins. */
  lemma {:induction false} AbsorbInv(seen: set<string>, collected: seq<Pin>, pins: seq<Pin>, n: int)
    requires seen == IdSet(collected) && DistinctIds(collected) && |collected| < n
    ensures var (seen', collected') := Absorb(seen, collected, pins, n);
      && seen' == IdSet(collected') && DistinctIds(collected') && |collected'| <= n
      && |collected| <= |collected'| && collected'[..|collected|] == collected
      && (|collected'| == |collected| <==> forall p :: p in pins ==> p.pinId in seen)
      && (|collected'| < n ==> forall p :: p in pins ==> p.pinId in seen')
    decreases |pins|
  {
    if pins != [] {
      var p := pins[0];
      assert forall q :: q in pins ==> q == p || q in pins[1..];
      if p.pinId in seen {
        AbsorbInv(seen, collected, pins[1..], n);
      } else {
        var seen', collected' := seen + {p.pinId}, collected + [p];
        assert seen' == IdSet(collected');
        IdSetAppend(collected, p);
        assert DistinctIds(collected');
        if |collected'| < n {
          AbsorbInv(seen', collected', pins[1..], n);
          var r := Absorb(seen', collected', pins[1..], n).1;
          assert r[..|collected|] == r[..|collected'|][..|collected|];
        }
      }
    }
  }

  /** A round keeps the invariant, only ever appends, and makes progress:
      either it collects a pin or it raises `idle_rounds`. `idle_rounds` is
      reset by a productive round, raised by one by an idle one, and raised by
      one more when the height did not change. */
  lemma StepSpec(c: Collector, r: Round, n: int)
    requires CollectorInv(c, n) && Running(c, n)
    ensures var c' := Step(c, r, n);
      && CollectorInv(c', n)
      && |c.collected| <= |c'.collected|
      && c'.collected[..|c.collected|] == c.collected
      && c.seenIds <= c'.seenIds
      && (|c'.collected| > |c.collected| || c'.idleRounds > c.idleRounds)
      && c'.idleRounds == (if |c'.collected| > |c.collected| then 0 else c.idleRounds + 1)
                          + (if r.height == c.lastHeight then 1 else 0)
      && c'.lastHeight == r.height
      && ((|c'.collected| == |c.collected|) <==> forall p :: p in r.pins ==> p.pinId in c.seenIds)
      && |c'.collected| - |c.collected| <= |FirstOccurrences(Unseen(r.pins, c.seenIds))|
      && c'.collected[|c.collected|..]
         == FirstOccurrences(Unseen(r.pins, c.seenIds))[..|c'.collected| - |c.collected|]
  {
    AbsorbSpec(c.seenIds, c.collected, r.pins, n);
    var c' := Step(c, r, n);
    forall x | x in c.seenIds ensures x in c'.seenIds {
      var p :| p in c.collected && p.pinId == x;
      var i :| 0 <= i < |c.collected| && c.collected[i] == p;
      assert c'.collected[i] == p;
    }
  }

  /** The loop ran through its first k rounds. */
  ghost predicate RanThrough(feed: nat -> Round, n: int, k: nat)
  {
    forall j :: 0 <= j < k ==> Running(After(feed, n, j), n)
  }

  lemma RanThroughStep(feed: nat -> Round, n: int, k: nat)
    requires RanThrough(feed, n, k) && Running(After(feed, n, k), n)
    ensures RanThrough(feed, n, k + 1)
  {
  }

  /** While the loop runs, every state it passes through keeps the invariant. */
  lemma {:induction false} AfterInv(feed: nat -> Round, n: int, k: nat)
    requires RanThrough(feed, n, k)
    ensures CollectorInv(After(feed, n, k), n)
  {
    if k > 0 {
      AfterInv(feed, n, k - 1);
      StepSpec(After(feed, n, k - 1), feed(k - 1), n);
    }
  }

  /** Room left before the loop must stop: 61 for each pin still missing (at
      most 60 idle rounds and the productive one), plus the idle rounds left. */
  function Slack(c: Collector, n: int): int
  {
    61 * (n - |c.collected|) + MaxRounds - (if c.idleRounds < MaxRounds then c.idleRounds else MaxRounds)
  }

  /** Every round uses up at least one unit of slack. */
  lemma StepSlack(c: Collector, r: Round, n: int)
    requires CollectorInv(c, n) && Running(c, n)
    ensures Slack(Step(c, r, n), n) < Slack(c, n)
  {
    StepSpec(c, r, n);
  }

  /** The inner `for p in pins` loop of one round, computing Absorb; also
      reports how many pins it appended. */
  method AbsorbRound(seenIds0: set<string>, collected0: seq<Pin>, pins: seq<Pin>, n: int)
    returns (seenIds: set<string>, collected: seq<Pin>, addedThisRound: int)
    requires |collected0| < n
    ensures (seenIds, collected) == Absorb(seenIds0, collected0, pins, n)
    ensures addedThisRound == |collected| - |collected0|
  {
    seenIds, collected := seenIds0, collected0;
    addedThisRound := 0;
    var i := 0;
    while i < |pins|
      invariant 0 <= i <= |pins|
      invariant Absorb(seenIds0, collected0, pins, n) == Absorb(seenIds, collected, pins[i..], n)
      invariant |collected| < n
      invariant addedThisRound == |collected| - |collected0|
    {
      var pid := pins[i].pinId;
      if pid in seenIds {
        i := i + 1;
        continue;
      }
      seenIds := seenIds + {pid};
      collected := collected + [pins[i]];
      addedThisRound := addedThisRound + 1;
      if |collected| >= n {
        return;
      }
      i := i + 1;
    }
  }

  /** The collector loop of _scrape_worker_selenium: it stops at the first
      round after which `n` pins are collected or `idle_rounds` reached 60, has
      collected at most max(n, 0) pins with distinct ids, runs no round when
      n <= 0, and runs at most 61 n + 60 rounds. */
  method Collect(n: int, feed: nat -> Round) returns (collected: seq<Pin>, rounds: nat)
    ensures collected == After(feed, n, rounds).collected
    ensures !Running(After(feed, n, rounds), n)
    ensures forall k :: 0 <= k < rounds ==> Running(After(feed, n, k), n)
    ensures |collected| <= (if n > 0 then n else 0)
    ensures DistinctIds(collected)
    ensures n <= 0 ==> rounds == 0 && collected == []
    ensures n > 0 ==> rounds <= 61 * n + 60
  {
    var seenIds: set<string> := {};
    collected := [];
    var lastHeight := 0;
    var idleRounds: nat := 0;
    rounds := 0;
    while |collected| < n && idleRounds < MaxRounds
      invariant Collector(seenIds, collected, idleRounds, lastHeight) == After(feed, n, rounds)
      invariant RanThrough(feed, n, rounds)
      invariant CollectorInv(Collector(seenIds, collected, idleRounds, lastHeight), n)
      invariant n > 0 ==> rounds + Slack(Collector(seenIds, collected, idleRounds, lastHeight), n) <= 61 * n + 60
      decreases n - |collected|, MaxRounds - idleRounds
    {
      ghost var before := Collector(seenIds, collected, idleRounds, lastHeight);
      StepSpec(before, feed(rounds), n);
      StepSlack(before, feed(rounds), n);
      RanThroughStep(feed, n, rounds);
      var round := feed(rounds);
      var addedThisRound;
      seenIds, collected, addedThisRound := AbsorbRound(seenIds, collected, round.pins, n);
      if addedThisRound == 0 {
        idleRounds := idleRounds + 1;
      } else {
        idleRounds := 0;
      }
      var newHeight := round.height;
      if newHeight == lastHeight {
        idleRounds := idleRounds + 1;
      }
      lastHeight := newHeight;
      rounds := rounds + 1;
    }
  }

  // ---------------------------------------------------------- batch loop

  /** What the batch needs besides the pins: the query, the target directory,
      the network collaborators and the clock value of the inserts. */
  datatype BatchContext = BatchContext(
    query: string,
    outDir: string,
    resolve: string -> MediaResult,
    fetch: (string, string) -> bool,
    now: int)

  /** The stub written before a pin's download: no media, no path, the query. */
  function StubRecord(p: Pin, q: string): Record
  {
    Record(p.pinId, Some(p.href), p.title, None, None, None, None, Some(q))
  }

  /** `res.get("success") and res.get("filepath")`: the path to record, if any. */
  function SavedPath(res: DownloadResult): Option<string>
  {
    if res.success && res.filepath.Some? && res.filepath.value != "" then res.filepath else None
  }

  /** The download the batch makes for one pin. */
  function PinDownload(p: Pin, ctx: BatchContext): DownloadResult
  {
    DownloadPinterest(p.pinId, ctx.outDir, None, ctx.resolve, ctx.fetch)
  }

  /** One iteration of the batch: stub upsert, then the path on success. */
  function Attempt(t: Table, p: Pin, ctx: BatchContext): Table
  {
    var stubbed := Upsert(t, StubRecord(p, ctx.query), ctx.now);
    match SavedPath(PinDownload(p, ctx))
    case Some(path) => SetFilePath(stubbed, p.pinId, path)
    case None => stubbed
  }

  /** The table after attempting every pin of `pins`, in order. */
  function Batch(t: Table, pins: seq<Pin>, ctx: BatchContext): Table
  {
    if pins == [] then t else Attempt(Batch(t, pins[..|pins| - 1], ctx), pins[|pins| - 1], ctx)
  }

  /** The row the batch leaves for pin p: the stub's columns, and as file path
      the downloaded one, or else whatever path the row had before. */
  ghost predicate BatchRow(r: Row, p: Pin, ctx: BatchContext, before: Option<Row>)
  {
    && r.pinId == p.pinId && r.href == Some(p.href) && r.title == p.title
    && r.description.None? && r.mediaType.None? && r.mediaUrl.None? && r.query == Some(ctx.query)
    && r.filePath == match SavedPath(PinDownload(p, ctx))
      case Some(path) => Some(path)
      case None => if before.Some? then before.value.filePath else None
  }

  lemma AttemptSpec(t: Table, p: Pin, ctx: BatchContext, key: string)
    requires WellFormed(t)
    ensures WellFormed(Attempt(t, p, ctx))
    ensures key != p.pinId ==> Lookup(Attempt(t, p, ctx), key) == Lookup(t, key)
    ensures key == p.pinId ==>
      (Lookup(Attempt(t, p, ctx), key).Some? &&
       BatchRow(Lookup(Attempt(t, p, ctx), key).value, p, ctx, Lookup(t, key)))
  {
    var rec := StubRecord(p, ctx.query);
    var stubbed := Upsert(t, rec, ctx.now);
    UpsertWellFormed(t, rec, ctx.now);
    UpsertLookup(t, rec, ctx.now, key);
    match SavedPath(PinDownload(p, ctx))
    case Some(path) =>
      SetFilePathWellFormed(stubbed, p.pinId, path);
      SetFilePathLookup(stubbed, p.pinId, path, key);
    case None =>
  }

  lemma BatchStep(t: Table, pins: seq<Pin>, i: nat, ctx: BatchContext)
    requires i < |pins|
    ensures Batch(t, pins[..i + 1], ctx) == Attempt(Batch(t, pins[..i], ctx), pins[i], ctx)
  {
    assert pins[..i + 1][..i] == pins[..i];
  }

  /** The batch keeps the table well formed, leaves the rows of other ids
      alone, and leaves each attempted pin with its stub row and, on success,
      its file path. */
  lemma {:induction false} BatchSpec(t: Table, pins: seq<Pin>, ctx: BatchContext, key: string)
    requires WellFormed(t) && DistinctIds(pins)
    ensures WellFormed(Batch(t, pins, ctx))
    ensures key !in IdSet(pins) ==> Lookup(Batch(t, pins, ctx), key) == Lookup(t, key)
    ensures forall j :: 0 <= j < |pins| && pins[j].pinId == key ==>
      Lookup(Batch(t, pins, ctx), key).Some? && BatchRow(Lookup(Batch(t, pins, ctx), key).value, pins[j], ctx, Lookup(t, key))
  {
    if pins != [] {
      var front := pins[..|pins| - 1];
      var last := pins[|pins| - 1];
      assert pins == front + [last];
      assert DistinctIds(front);
      BatchSpec(t, front, ctx, key);
      var mid := Batch(t, front, ctx);
      AttemptSpec(mid, last, ctx, key);
      if key == last.pinId {
        assert key !in IdSet(front);
        forall j | 0 <= j < |pins| && pins[j].pinId == key ensures j == |pins| - 1 {
        }
      } else {
        forall j | 0 <= j < |pins| && pins[j].pinId == key ensures j < |front| && front[j] == pins[j] {
        }
      }
    }
  }

  /** The body of the batch loop for one pin: the stub upsert, the download,
      and the path update when the download saved a file. */
  method AttemptPin(store: Store, p: Pin, ctx: BatchContext)
    requires store.Valid()
    modifies store
    ensures store.Valid()
    ensures store.State() == Attempt(old(store.State()), p, ctx)
  {
    store.UpsertPin(StubRecord(p, ctx.query), ctx.now);
    var res := DownloadPinterest(p.pinId, ctx.outDir, None, ctx.resolve, ctx.fetch);
    assert SavedPath(res) == SavedPath(PinDownload(p, ctx));
    if res.success && res.filepath.Some? && res.filepath.value != "" {
      store.UpdateFilePath(p.pinId, res.filepath.value);
    }
  }

  /** The batch `for` loop: every collected pin (up to `n`) gets its stub row
      before its download and its path after a successful one; failures are
      counted like successes. */
  method DownloadBatch(store: Store, collected: seq<Pin>, n: int, ctx: BatchContext) returns (count: int)
    requires store.Valid()
    modifies store
    ensures store.Valid()
    ensures count == if n <= 0 then 0 else if n < |collected| then n else |collected|
    ensures store.State() == Batch(old(store.State()), collected[..count], ctx)
  {
    count := 0;
    var i := 0;
    while i < |collected|
      invariant 0 <= i <= |collected| && count == i
      invariant n <= 0 ==> i == 0
      invariant n > 0 ==> i <= n
      invariant store.Valid()
      invariant store.State() == Batch(old(store.State()), collected[..i], ctx)
    {
      if count >= n {
        break;
      }
      BatchStep(old(store.State()), collected, i, ctx);
      AttemptPin(store, collected[i], ctx);
      count := count + 1;
      i := i + 1;
    }
  }

  /** _scrape_worker_selenium after the browser is up: collect, then download
      every collected pin; the final count is the number of pins attempted.
      The search query `q` is `ctx.query`; `rounds` is how many rounds of the
      feed the collector ran. */
  method ScrapeWorker(store: Store, n: int, feed: nat -> Round, ctx: BatchContext)
    returns (collected: seq<Pin>, count: int, rounds: nat)
    requires store.Valid()
    modifies store
    ensures store.Valid()
    ensures collected == After(feed, n, rounds).collected
    ensures !Running(After(feed, n, rounds), n)
    ensures forall k :: 0 <= k < rounds ==> Running(After(feed, n, k), n)
    ensures count == |collected| <= (if n > 0 then n else 0)
    ensures DistinctIds(collected)
    ensures store.State() == Batch(old(store.State()), collected, ctx)
    ensures forall j :: 0 <= j < |collected| ==> (
      var r := Lookup(store.State(), collected[j].pinId);
       r.Some? && BatchRow(r.value, collected[j], ctx, Lookup(old(store.State()), collected[j].pinId)))
  {
    collected, rounds := Collect(n, feed);
    count := DownloadBatch(store, collected, n, ctx);
    assert collected[..count] == collected;
    forall j | 0 <= j < |collected|
      ensures var r := Lookup(store.State(), collected[j].pinId);
        r.Some? && BatchRow(r.value, collected[j], ctx, Lookup(old(store.State()), collected[j].pinId))
    {
      BatchSpec(old(store.State()), collected, ctx, collected[j].pinId);
    }
  }

  // ------------------------------------------------------- download worker

  /** The record _download_worker writes after a successful download. */
  function WorkerRecord(pin: string, name: Option<string>, result: DownloadResult): Record
  {
    var pinId := ExtractPinId(pin);
    Record(pinId, Some(CanonicalUrl(pinId)), if name == Some("") then None else name,
           None, result.mediaType, None, result.filepath, None)
  }

  /** _download_worker: download, then upsert only on success, with the
      returned path; afterwards the pin's row has exactly that path. */
  method DownloadWorker(store: Store, pin: string, outDir: string, name: Option<string>,
                        resolve: string -> MediaResult, fetch: (string, string) -> bool, now: int)
    returns (result: DownloadResult)
    requires store.Valid()
    modifies store
    ensures store.Valid()
    ensures result == DownloadPinterest(pin, outDir, name, resolve, fetch)
    ensures result.success ==> store.State() == Upsert(old(store.State()), WorkerRecord(pin, name, result), now)
    ensures !result.success ==> store.State() == old(store.State())
    ensures result.success ==>
      Lookup(store.State(), ExtractPinId(pin)).Some? &&
      Lookup(store.State(), ExtractPinId(pin)).value.filePath == result.filepath
  {
    result := DownloadPinterest(pin, outDir, name, resolve, fetch);
    if result.success {
      var rec := WorkerRecord(pin, name, result);
      UpsertLookup(store.State(), rec, now, rec.pinId);
      store.UpsertPin(rec, now);
    }
  }
}
