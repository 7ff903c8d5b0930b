/**
 * String helpers shared by the store, the downloader and the scraper:
 * ASCII digits, prefix and substring tests, and Python's `str.split('/')`.
 */
module Text {

  predicate IsDigit(c: char) { '0' <= c <= '9' }

  predicate AllDigits(s: string) { forall i :: 0 <= i < |s| ==> IsDigit(s[i]) }

  predicate StartsWith(s: string, prefix: string) { |prefix| <= |s| && s[..|prefix|] == prefix }

  /** `needle` occurs in `hay` starting at position `i`. */
  predicate OccursAt(needle: string, hay: string, i: int)
  {
    0 <= i <= |hay| - |needle| && hay[i..i + |needle|] == needle
  }

  /** `needle in hay` for Python strings: some window of `hay` equals `needle`. */
  predicate IsSubstring(needle: string, hay: string)
  {
    exists i :: 0 <= i <= |hay| && OccursAt(needle, hay, i)
  }

  /** `re.sub(r"\D", "", s)`: the digits of `s`, in order. */
  function Digits(s: string): (r: string)
    ensures AllDigits(r)
    ensures |r| <= |s|
    ensures forall c :: c in r <==> c in s && IsDigit(c)
  {
    if s == [] then [] else (if IsDigit(s[0]) then [s[0]] else []) + Digits(s[1..])
  }

  /** One character: kept exactly when it is a digit. */
  lemma DigitsOfChar(c: char)
    ensures Digits([c]) == if IsDigit(c) then [c] else []
  {
    assert [c][1..] == [];
  }

  /** Removing non-digits distributes over concatenation, so the digits stay in
      their order with their repeats. */
  lemma {:induction false} DigitsAppend(a: string, b: string)
    ensures Digits(a + b) == Digits(a) + Digits(b)
  {
    if a == [] {
      assert a + b == b;
    } else {
      assert (a + b)[0] == a[0];
      assert (a + b)[1..] == a[1..] + b;
      DigitsAppend(a[1..], b);
    }
  }

  lemma {:induction false} DigitsOfDigits(s: string)
    requires AllDigits(s)
    ensures Digits(s) == s
  {
    if s != [] {
      DigitsOfDigits(s[1..]);
    }
  }

  /** `s.split('/')`: the maximal '/'-free pieces between the separators,
      built one character at a time from the front. */
  function Split(s: string): (parts: seq<string>)
    ensures |parts| >= 1
  {
    if s == [] then [""]
    else
      var rest := Split(s[1..]);
      if s[0] == '/' then [""] + rest
      else [[s[0]] + rest[0]] + rest[1..]
  }

  /** There is more than one piece exactly when there is a separator, and no
      piece holds one. */
  lemma {:induction false} SplitPieces(s: string)
    ensures '/' in s <==> |Split(s)| >= 2
    ensures forall k :: 0 <= k < |Split(s)| ==> '/' !in Split(s)[k]
  {
    if s != [] {
      SplitPieces(s[1..]);
      assert s == [s[0]] + s[1..];
    }
  }

  /** `'/'.join(parts)`, the inverse of Split. */
  function Join(parts: seq<string>): string
    requires |parts| >= 1
  {
    if |parts| == 1 then parts[0] else parts[0] + "/" + Join(parts[1..])
  }

  lemma {:induction false} JoinSplit(s: string)
    ensures Join(Split(s)) == s
  {
    if s != [] {
      var rest := Split(s[1..]);
      JoinSplit(s[1..]);
      if s[0] != '/' && |rest| >= 2 {
        assert Join(rest) == rest[0] + "/" + Join(rest[1..]);
      }
    }
  }

  /** One step of Split: a leading separator opens a new piece, any other
      character joins the first piece. */
  lemma SplitCons(c: char, t: string)
    ensures Split([c] + t) ==
      if c == '/' then [""] + Split(t) else [[c] + Split(t)[0]] + Split(t)[1..]
  {
    assert ([c] + t)[1..] == t;
  }

  /** Prefixing a character to the first piece of a concatenation. */
  lemma ConsFirst(c: char, left: seq<string>, right: seq<string>)
    requires |left| >= 1
    ensures [[c] + (left + right)[0]] + (left + right)[1..]
         == ([[c] + left[0]] + left[1..]) + right
  {
    assert (left + right)[1..] == left[1..] + right;
  }

  /** Concatenation peels off the first character. */
  lemma ConcatCons(a: string, m: string)
    requires a != []
    ensures a + m == [a[0]] + (a[1..] + m)
    ensures a == [a[0]] + a[1..]
  {
  }

  /** Splitting is a homomorphism over the separator. */
  lemma {:induction false} SplitAround(a: string, b: string)
    ensures Split(a + "/" + b) == Split(a) + Split(b)
  {
    if a == [] {
      assert a + "/" + b == ['/'] + b;
      SplitCons('/', b);
    } else {
      var tail := a[1..];
      ConcatCons(a, "/" + b);
      assert a + "/" + b == a + ("/" + b) && tail + "/" + b == tail + ("/" + b);
      SplitAround(tail, b);
      SplitCons(a[0], tail + "/" + b);
      SplitCons(a[0], tail);
      if a[0] != '/' {
        ConsFirst(a[0], Split(tail), Split(b));
      }
    }
  }

  /** A '/'-free string is a single piece. */
  lemma {:induction false} SplitWhole(s: string)
    requires '/' !in s
    ensures Split(s) == [s]
  {
    if s != [] {
      ConcatCons(s, "");
      SplitWhole(s[1..]);
      SplitCons(s[0], s[1..]);
    }
  }

  /** Appending "/" and a '/'-free piece appends that piece. */
  lemma SplitSnoc(p: string, b: string)
    requires '/' !in b
    ensures Split(p + "/" + b) == Split(p) + [b]
  {
    SplitAround(p, b);
    SplitWhole(b);
  }
}
