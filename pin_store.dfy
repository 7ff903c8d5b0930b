/**
 * The `pins` table of pinterest_db.py as an in-memory keyed table.
 *
 * A `Table` is the abstract state: the rows in insertion order and the next
 * AUTOINCREMENT value.  `Upsert`, `SetFilePath` and `Fetch` are the meaning of
 * the three SQL statements; class `Store` performs the first two in place.
 */
module PinStore {
  import opened Options
  import opened Text

  /** The named parameters of the INSERT in upsert_pin. */
  datatype Record = Record(
    pinId: string,
    href: Option<string>,
    title: Option<string>,
    description: Option<string>,
    mediaType: Option<string>,
    mediaUrl: Option<string>,
    filePath: Option<string>,
    query: Option<string>)

  /** One row of `pins`; `createdAt` is the clock value taken at insertion. */
  datatype Row = Row(
    id: nat,
    pinId: string,
    href: Option<string>,
    title: Option<string>,
    description: Option<string>,
    mediaType: Option<string>,
    mediaUrl: Option<string>,
    filePath: Option<string>,
    query: Option<string>,
    createdAt: int)

  datatype Table = Table(rows: seq<Row>, nextId: nat)

  /** A freshly created table: no rows, AUTOINCREMENT starts at 1. */
  const EmptyTable := Table([], 1)

  /** The schema's guarantees: ids are positive, below the counter and grow with
      insertion order (AUTOINCREMENT, no deletes); `pin_id` is UNIQUE. */
  ghost predicate WellFormed(t: Table)
  {
    && 0 < t.nextId
    && (forall i :: 0 <= i < |t.rows| ==> 0 < t.rows[i].id < t.nextId)
    && (forall i, j :: 0 <= i < j < |t.rows| ==> t.rows[i].id < t.rows[j].id)
    && (forall i, j :: 0 <= i < |t.rows| && 0 <= j < |t.rows| && t.rows[i].pinId == t.rows[j].pinId ==> i == j)
  }

  /** The position of the row whose `pin_id` is `pinId`, if there is one. */
  function IndexOf(rows: seq<Row>, pinId: string): (k: Option<nat>)
    ensures k.None? <==> forall i :: 0 <= i < |rows| ==> rows[i].pinId != pinId
    ensures k.Some? ==> k.value < |rows| && rows[k.value].pinId == pinId
  {
    if rows == [] then None
    else if rows[0].pinId == pinId then Some(0)
    else match IndexOf(rows[1..], pinId)
      case None => None
      case Some(k) => Some(k + 1)
  }

  /** With unique keys the row carrying `pinId` is the one IndexOf finds. */
  lemma IndexOfUnique(t: Table, pinId: string, k: nat)
    requires WellFormed(t)
    requires k < |t.rows| && t.rows[k].pinId == pinId
    ensures IndexOf(t.rows, pinId) == Some(k)
  {
    var r := IndexOf(t.rows, pinId);
    assert t.rows[r.value].pinId == t.rows[k].pinId;
  }

  /** `SELECT * FROM pins WHERE pin_id = ?`. */
  function Lookup(t: Table, pinId: string): (r: Option<Row>)
    ensures r.Some? ==> r.value in t.rows && r.value.pinId == pinId
    ensures r.None? <==> forall i :: 0 <= i < |t.rows| ==> t.rows[i].pinId != pinId
  {
    match IndexOf(t.rows, pinId)
    case None => None
    case Some(k) => Some(t.rows[k])
  }

  /** The row the VALUES clause inserts. */
  function NewRow(id: nat, rec: Record, now: int): Row
  {
    Row(id, rec.pinId, rec.href, rec.title, rec.description, rec.mediaType,
        rec.mediaUrl, rec.filePath, rec.query, now)
  }

  /** SQL's COALESCE of two nullable values. */
  function Coalesce(a: Option<string>, b: Option<string>): Option<string>
  {
    if a.Some? then a else b
  }

  /** The DO UPDATE SET clause applied to the conflicting row. */
  function Merge(existing: Row, rec: Record): Row
  {
    existing.(href := rec.href, title := rec.title, description := rec.description,
         mediaType := rec.mediaType, mediaUrl := rec.mediaUrl,
         filePath := Coalesce(rec.filePath, existing.filePath), query := rec.query)
  }

  /** upsert_pin: insert a new row, or merge into the row with the same `pin_id`. */
  function Upsert(t: Table, rec: Record, now: int): Table
  {
    match IndexOf(t.rows, rec.pinId)
    case None => Table(t.rows + [NewRow(t.nextId, rec, now)], t.nextId + 1)
    case Some(k) => Table(t.rows[k := Merge(t.rows[k], rec)], t.nextId)
  }

  /** update_file_path: `UPDATE pins SET file_path=? WHERE pin_id=?`. */
  function SetFilePath(t: Table, pinId: string, path: string): Table
  {
    match IndexOf(t.rows, pinId)
    case None => t
    case Some(k) => Table(t.rows[k := t.rows[k].(filePath := Some(path))], t.nextId)
  }

  // ---------------------------------------------------------------- upsert

  /** A `pin_id` not yet in the table adds exactly one row, at the end, whose id
      exceeds every existing id; no existing row changes. */
  lemma UpsertInserts(t: Table, rec: Record, now: int)
    requires WellFormed(t)
    requires Lookup(t, rec.pinId).None?
    ensures var t' := Upsert(t, rec, now);
      && |t'.rows| == |t.rows| + 1
      && t'.rows[..|t.rows|] == t.rows
      && t'.rows[|t.rows|] == NewRow(t.nextId, rec, now)
      && (forall i :: 0 <= i < |t.rows| ==> t.rows[i].id < t'.rows[|t.rows|].id)
  {
    var t' := Upsert(t, rec, now);
    assert t'.rows == t.rows + [NewRow(t.nextId, rec, now)];
  }

  /** A `pin_id` already present adds no row: the conflicting row is merged in
      place and every other row is left as it was. */
  lemma UpsertMerges(t: Table, rec: Record, now: int, k: nat)
    requires WellFormed(t)
    requires k < |t.rows| && t.rows[k].pinId == rec.pinId
    ensures var t' := Upsert(t, rec, now);
      && |t'.rows| == |t.rows| && t'.nextId == t.nextId
      && t'.rows[k] == Merge(t.rows[k], rec)
      && (forall i :: 0 <= i < |t.rows| && i != k ==> t'.rows[i] == t.rows[i])
  {
    IndexOfUnique(t, rec.pinId, k);
  }

  /** The merge policy: `id`, `pin_id` and `created_at` stay; `file_path` keeps its
      old value exactly when the incoming one is null; every other column takes
      the incoming value, null included. */
  lemma MergePolicy(existing: Row, rec: Record)
    requires existing.pinId == rec.pinId
    ensures var r := Merge(existing, rec);
      && r.id == existing.id && r.pinId == existing.pinId && r.createdAt == existing.createdAt
      && (rec.filePath.None? ==> r.filePath == existing.filePath)
      && (rec.filePath.Some? ==> r.filePath == rec.filePath)
      && r.href == rec.href && r.title == rec.title && r.description == rec.description
      && r.mediaType == rec.mediaType && r.mediaUrl == rec.mediaUrl && r.query == rec.query
      && r == NewRow(existing.id, rec, existing.createdAt).(filePath := r.filePath)
  {
  }

  /** Appending a row with a fresh key and the next id keeps the invariants. */
  lemma AppendWellFormed(t: Table, row: Row)
    requires WellFormed(t)
    requires row.id == t.nextId
    requires forall i :: 0 <= i < |t.rows| ==> t.rows[i].pinId != row.pinId
    ensures WellFormed(Table(t.rows + [row], t.nextId + 1))
  {
    var rows := t.rows + [row];
    assert forall i :: 0 <= i < |t.rows| ==> rows[i] == t.rows[i];
  }

  /** Replacing a row by one with the same id and key keeps the invariants. */
  lemma ReplaceWellFormed(t: Table, k: nat, row: Row)
    requires WellFormed(t)
    requires k < |t.rows| && row.id == t.rows[k].id && row.pinId == t.rows[k].pinId
    ensures WellFormed(Table(t.rows[k := row], t.nextId))
  {
    var rows := t.rows[k := row];
    assert forall i :: 0 <= i < |t.rows| ==> rows[i].id == t.rows[i].id && rows[i].pinId == t.rows[i].pinId;
  }

  /** Upsert keeps the schema's invariants, in particular `pin_id` uniqueness. */
  lemma UpsertWellFormed(t: Table, rec: Record, now: int)
    requires WellFormed(t)
    ensures WellFormed(Upsert(t, rec, now))
  {
    match IndexOf(t.rows, rec.pinId)
    case None => AppendWellFormed(t, NewRow(t.nextId, rec, now));
    case Some(k) => ReplaceWellFormed(t, k, Merge(t.rows[k], rec));
  }

  /** What a later lookup sees after an upsert: the new or merged row under the
      record's key, and the old answer under every other key. */
  lemma UpsertLookup(t: Table, rec: Record, now: int, pinId: string)
    requires WellFormed(t)
    ensures Lookup(Upsert(t, rec, now), pinId) ==
      if pinId != rec.pinId then Lookup(t, pinId)
      else match Lookup(t, pinId)
        case None => Some(NewRow(t.nextId, rec, now))
        case Some(r) => Some(Merge(r, rec))
  {
    var t' := Upsert(t, rec, now);
    UpsertWellFormed(t, rec, now);
    match IndexOf(t.rows, rec.pinId)
    case None =>
      assert t'.rows == t.rows + [NewRow(t.nextId, rec, now)];
      if pinId == rec.pinId {
        IndexOfUnique(t', pinId, |t.rows|);
      } else {
        match IndexOf(t.rows, pinId)
        case None =>
        case Some(j) => IndexOfUnique(t', pinId, j);
      }
    case Some(k) =>
      if pinId == rec.pinId {
        IndexOfUnique(t', pinId, k);
      } else {
        match IndexOf(t.rows, pinId)
        case None =>
        case Some(j) => IndexOfUnique(t', pinId, j);
      }
  }

  /** Applying the same record twice leaves the table as applying it once. */
  lemma UpsertIdempotent(t: Table, rec: Record, now: int, later: int)
    requires WellFormed(t)
    ensures Upsert(Upsert(t, rec, now), rec, later) == Upsert(t, rec, now)
  {
    var t' := Upsert(t, rec, now);
    UpsertWellFormed(t, rec, now);
    match IndexOf(t.rows, rec.pinId)
    case None =>
      assert t'.rows == t.rows + [NewRow(t.nextId, rec, now)];
      IndexOfUnique(t', rec.pinId, |t.rows|);
      assert t'.rows[|t.rows| := Merge(t'.rows[|t.rows|], rec)] == t'.rows;
    case Some(k) =>
      IndexOfUnique(t', rec.pinId, k);
      assert t'.rows[k := Merge(t'.rows[k], rec)] == t'.rows;
  }

  /** A record with a null `file_path` never erases a recorded path. */
  lemma UpsertKeepsPath(t: Table, rec: Record, now: int, path: string)
    requires WellFormed(t)
    requires rec.filePath.None?
    requires Lookup(t, rec.pinId).Some? && Lookup(t, rec.pinId).value.filePath == Some(path)
    ensures Lookup(Upsert(t, rec, now), rec.pinId).Some?
    ensures Lookup(Upsert(t, rec, now), rec.pinId).value.filePath == Some(path)
  {
    UpsertLookup(t, rec, now, rec.pinId);
  }

  // ---------------------------------------------------------- set file path

  /** Two row sequences that agree on every row's id and key. */
  ghost predicate SameKeys(a: seq<Row>, b: seq<Row>)
  {
    |a| == |b| && forall i :: 0 <= i < |a| ==> a[i].id == b[i].id && a[i].pinId == b[i].pinId
  }

  lemma {:induction false} SameKeysIndexOf(a: seq<Row>, b: seq<Row>, key: string)
    requires SameKeys(a, b)
    ensures IndexOf(a, key) == IndexOf(b, key)
  {
    if a != [] {
      assert SameKeys(a[1..], b[1..]);
      SameKeysIndexOf(a[1..], b[1..], key);
    }
  }

  /** update_file_path keeps the schema's invariants and the set of rows. */
  lemma SetFilePathWellFormed(t: Table, pinId: string, path: string)
    requires WellFormed(t)
    ensures SameKeys(t.rows, SetFilePath(t, pinId, path).rows)
    ensures WellFormed(SetFilePath(t, pinId, path))
    ensures Lookup(t, pinId).None? ==> SetFilePath(t, pinId, path) == t
  {
  }

  /** update_file_path changes the `file_path` of the row with that key and
      nothing else; without such a row it changes nothing. */
  lemma SetFilePathLookup(t: Table, pinId: string, path: string, key: string)
    requires WellFormed(t)
    ensures Lookup(SetFilePath(t, pinId, path), key) ==
      if key == pinId && Lookup(t, key).Some?
      then Some(Lookup(t, key).value.(filePath := Some(path)))
      else Lookup(t, key)
  {
    var t' := SetFilePath(t, pinId, path);
    SetFilePathWellFormed(t, pinId, path);
    SameKeysIndexOf(t.rows, t'.rows, key);
  }

  // ----------------------------------------------------------------- fetch

  /** A nullable column contains `s` (a NULL never matches LIKE). */
  predicate FieldHas(field: Option<string>, s: string)
  {
    field.Some? && IsSubstring(s, field.value)
  }

  /** The WHERE clause: `s` occurs in pin_id, title, description or query. */
  predicate Matches(r: Row, s: string)
  {
    IsSubstring(s, r.pinId) || FieldHas(r.title, s) || FieldHas(r.description, s) || FieldHas(r.query, s)
  }

  /** `if search:` — an absent or empty search term adds no WHERE clause. */
  predicate Selected(r: Row, search: Option<string>)
  {
    search.None? || search.value == "" || Matches(r, search.value)
  }

  /** The selected rows, last inserted first. */
  function NewestFirst(rows: seq<Row>, search: Option<string>): seq<Row>
  {
    if rows == [] then []
    else
      var last := rows[|rows| - 1];
      (if Selected(last, search) then [last] else []) + NewestFirst(rows[..|rows| - 1], search)
  }

  /** fetch_pins: `ORDER BY id DESC LIMIT ?`; SQLite reads a negative LIMIT as
      "no limit". */
  function Fetch(t: Table, limit: int, search: Option<string>): seq<Row>
  {
    var all := NewestFirst(t.rows, search);
    if 0 <= limit < |all| then all[..limit] else all
  }

  ghost predicate IdsAscending(rows: seq<Row>)
  {
    forall i, j :: 0 <= i < j < |rows| ==> rows[i].id < rows[j].id
  }

  ghost predicate IdsDescending(rows: seq<Row>)
  {
    forall i, j :: 0 <= i < j < |rows| ==> rows[i].id > rows[j].id
  }

  /** NewestFirst keeps exactly the selected rows. */
  lemma {:induction false} NewestFirstMembers(rows: seq<Row>, search: Option<string>)
    ensures forall x :: x in NewestFirst(rows, search) <==> x in rows && Selected(x, search)
  {
    if rows != [] {
      var front := rows[..|rows| - 1];
      assert rows == front + [rows[|rows| - 1]];
      NewestFirstMembers(front, search);
    }
  }

  /** Reading ascending ids backwards gives descending ids. */
  lemma {:induction false} NewestFirstDescending(rows: seq<Row>, search: Option<string>)
    requires IdsAscending(rows)
    ensures IdsDescending(NewestFirst(rows, search))
  {
    if rows != [] {
      var front := rows[..|rows| - 1];
      var last := rows[|rows| - 1];
      assert IdsAscending(front);
      NewestFirstDescending(front, search);
      NewestFirstMembers(front, search);
      var rest := NewestFirst(front, search);
      if Selected(last, search) {
        forall i, j | 0 <= i < j < |rest| + 1 ensures ([last] + rest)[i].id > ([last] + rest)[j].id {
          if i == 0 {
            var x := rest[j - 1];
            assert x in front;
            var p :| 0 <= p < |front| && front[p] == x;
            assert rows[p] == x;
          }
        }
      }
    }
  }

  /** The first n rows of a newest-first list: still newest first, and every
      row cut off is older than every row kept. */
  lemma TakeNewest(all: seq<Row>, n: nat)
    requires IdsDescending(all) && n < |all|
    ensures IdsDescending(all[..n])
    ensures forall x :: x in all[..n] ==> x in all
    ensures forall x, y :: x in all && x !in all[..n] && y in all[..n] ==> x.id < y.id
  {
    var r := all[..n];
    forall x, y | x in all && x !in r && y in r ensures x.id < y.id {
      var p :| 0 <= p < |all| && all[p] == x;
      var q :| 0 <= q < |r| && r[q] == y;
      assert all[q] == y;
      assert forall i :: 0 <= i < n ==> all[i] == r[i];
      assert p >= n;
    }
  }

  /** fetch_pins returns at most `limit` rows (all of them for a negative limit),
      each a selected row of the table, in strictly decreasing id order; a row
      left out is older than every row returned, and when fewer than `limit`
      rows come back, no selected row is left out. */
  lemma FetchSpec(t: Table, limit: int, search: Option<string>)
    requires WellFormed(t)
    ensures var r := Fetch(t, limit, search);
      && (limit >= 0 ==> |r| <= limit)
      && (forall x :: x in r ==> x in t.rows && Selected(x, search))
      && IdsDescending(r)
      && (forall x, y :: x in t.rows && Selected(x, search) && x !in r && y in r ==> x.id < y.id)
      && ((limit < 0 || |r| < limit) ==> forall x :: x in t.rows && Selected(x, search) ==> x in r)
  {
    NewestFirstMembers(t.rows, search);
    NewestFirstDescending(t.rows, search);
    var all := NewestFirst(t.rows, search);
    if 0 <= limit < |all| {
      TakeNewest(all, limit);
    }
  }

  /** With a non-empty search every returned row contains the term in one of the
      four searched columns; without one it is the newest `limit` rows. */
  lemma FetchFilter(t: Table, limit: int, s: string)
    requires WellFormed(t)
    requires s != ""
    ensures forall x :: x in Fetch(t, limit, Some(s)) ==>
      IsSubstring(s, x.pinId) || FieldHas(x.title, s) || FieldHas(x.description, s) || FieldHas(x.query, s)
    ensures Fetch(t, limit, None) == Fetch(t, limit, Some(""))
  {
    FetchSpec(t, limit, Some(s));
    NoFilterIsSame(t.rows);
  }

  lemma {:induction false} NoFilterIsSame(rows: seq<Row>)
    ensures NewestFirst(rows, None) == NewestFirst(rows, Some(""))
  {
    if rows != [] {
      NoFilterIsSame(rows[..|rows| - 1]);
    }
  }

  // ------------------------------------------------------------- the store

  /** The table as the application shares it: every call updates it in place. */
  class Store {
    var rows: seq<Row>
    var nextId: nat

    function State(): Table
      reads this
    {
      Table(rows, nextId)
    }

    ghost predicate Valid()
      reads this
    {
      WellFormed(State())
    }

    /** init_db on a new database file. */
    constructor ()
      ensures Valid() && State() == EmptyTable
    {
      rows := [];
      nextId := 1;
    }

    /** upsert_pin. */
    method UpsertPin(rec: Record, now: int)
      requires Valid()
      modifies this
      ensures Valid()
      ensures State() == Upsert(old(State()), rec, now)
      ensures Lookup(State(), rec.pinId).Some?
      ensures |old(rows)| <= |rows| <= |old(rows)| + 1
    {
      UpsertWellFormed(State(), rec, now);
      UpsertLookup(State(), rec, now, rec.pinId);
      var k := IndexOf(rows, rec.pinId);
      if k.None? {
        rows := rows + [NewRow(nextId, rec, now)];
        nextId := nextId + 1;
      } else {
        rows := rows[k.value := Merge(rows[k.value], rec)];
      }
    }

    /** update_file_path. */
    method UpdateFilePath(pinId: string, path: string)
      requires Valid()
      modifies this
      ensures Valid()
      ensures State() == SetFilePath(old(State()), pinId, path)
      ensures nextId == old(nextId) && |rows| == |old(rows)|
    {
      SetFilePathWellFormed(State(), pinId, path);
      var k := IndexOf(rows, pinId);
      if k.Some? {
        rows := rows[k.value := rows[k.value].(filePath := Some(path))];
      }
    }
  }
}
