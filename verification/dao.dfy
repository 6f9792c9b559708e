/**
 * The `events` table and the five DAO operations of EventDao.kt, as pure
 * functions and methods over an immutable table value.
 */
module Dao {
  import opened Text
  import opened Entity

  /**
   * The table. Room declares an `autoGenerate` key as `INTEGER PRIMARY KEY
   * AUTOINCREMENT`, so besides the rows SQLite keeps the largest id the table
   * has ever held (its `sqlite_sequence` entry): that is `lastRowId`, 0 for a
   * table that never had a row.
   */
  datatype Table = Table(rows: map<int, EventEntity>, lastRowId: int)

  const EmptyTable: Table := Table(map[], 0)

  /**
   * Every row sits under its own id, id 0 never names a row, and no row id is
   * beyond the sequence.
   */
  ghost predicate Valid(t: Table) {
    && 0 <= t.lastRowId
    && forall k | k in t.rows :: t.rows[k].id == k && k != 0 && k <= t.lastRowId
  }

  lemma EmptyTableValid()
    ensures Valid(EmptyTable)
  {
  }

  /* ---------- insertEvent ---------- */

  /**
   * The key `insertEvent(e)` writes. Room binds an auto-generated key of 0 as
   * NULL, and SQLite then picks one more than the largest id ever used.
   */
  function AssignedId(t: Table, e: EventEntity): (k: int)
    requires Valid(t)
    ensures k != 0
    ensures e.id == 0 ==> k !in t.rows && t.lastRowId < k
    ensures e.id != 0 ==> k == e.id
  {
    if e.id == 0 then t.lastRowId + 1 else e.id
  }

  /**
   * `@Insert(onConflict = REPLACE)`: a row already under the key is replaced,
   * every other row stays as it was.
   */
  function InsertEvent(t: Table, e: EventEntity): (r: Table)
    requires Valid(t)
    ensures Valid(r)
    ensures var k := AssignedId(t, e);
      && r.rows.Keys == t.rows.Keys + {k}
      && r.rows[k] == e.(id := k)
      && (forall j | j in t.rows && j != k :: r.rows[j] == t.rows[j])
    ensures t.lastRowId <= r.lastRowId
  {
    var k := AssignedId(t, e);
    Table(t.rows[k := e.(id := k)], if t.lastRowId < k then k else t.lastRowId)
  }

  /** A new row grows the table by one; an explicit id that is already present keeps its size. */
  lemma InsertEventCount(t: Table, e: EventEntity)
    requires Valid(t)
    ensures e.id == 0 ==> |InsertEvent(t, e).rows| == |t.rows| + 1
    ensures e.id in t.rows ==> |InsertEvent(t, e).rows| == |t.rows|
  {
    var r := InsertEvent(t, e);
    var k := AssignedId(t, e);
    if e.id == 0 {
      assert k !in t.rows.Keys;
      assert |r.rows.Keys| == |t.rows.Keys + {k}| == |t.rows.Keys| + 1;
    } else if e.id in t.rows {
      assert r.rows.Keys == t.rows.Keys;
    }
  }

  /* ---------- deleteEventById and deleteAll ---------- */

  /** `DELETE FROM events WHERE id = :eventId`; the sequence is left alone. */
  function DeleteEventById(t: Table, eventId: int): (r: Table)
    ensures r.rows.Keys == t.rows.Keys - {eventId}
    ensures forall j | j in r.rows :: r.rows[j] == t.rows[j]
    ensures r.lastRowId == t.lastRowId
    ensures eventId !in t.rows ==> r == t
    ensures Valid(t) ==> Valid(r)
  {
    Table(t.rows - {eventId}, t.lastRowId)
  }

  /** Deleting the same id a second time changes nothing. */
  lemma DeleteEventByIdIdempotent(t: Table, eventId: int)
    ensures DeleteEventById(DeleteEventById(t, eventId), eventId) == DeleteEventById(t, eventId)
  {
  }

  /** Deleting the row a fresh insert created gives back the rows from before. */
  lemma InsertThenDelete(t: Table, e: EventEntity)
    requires Valid(t) && e.id == 0
    ensures DeleteEventById(InsertEvent(t, e), AssignedId(t, e)).rows == t.rows
  {
    var k := AssignedId(t, e);
    var r := DeleteEventById(InsertEvent(t, e), k);
    assert r.rows.Keys == t.rows.Keys;
  }

  /** An id that once named a row is never handed out again, even after the row is deleted. */
  lemma IdsNeverReused(t: Table, gone: int, e: EventEntity)
    requires Valid(t) && gone in t.rows && e.id == 0
    ensures AssignedId(DeleteEventById(t, gone), e) != gone
    ensures AssignedId(DeleteAll(t), e) != gone
  {
  }

  /** `DELETE FROM events`: no rows remain; the sequence is left alone. */
  function DeleteAll(t: Table): (r: Table)
    ensures |r.rows| == 0
    ensures r.lastRowId == t.lastRowId
    ensures Valid(t) ==> Valid(r)
  {
    Table(map[], t.lastRowId)
  }

  /* ---------- getAllEvents and getAllEventsOnce ---------- */

  /** No two entries of `s` share an id. */
  ghost predicate DistinctIds(s: seq<EventEntity>) {
    forall i, j | 0 <= i < j < |s| :: s[i].id != s[j].id
  }

  /** `s` lists exactly the rows of `t`, each once. */
  ghost predicate ListsRows(t: Table, s: seq<EventEntity>) {
    && (forall i | 0 <= i < |s| :: s[i].id in t.rows && t.rows[s[i].id] == s[i])
    && (forall k | k in t.rows :: t.rows[k] in s)
    && DistinctIds(s)
  }

  /** `ORDER BY date ASC`: non-decreasing in the string order of `date`, ties in no promised order. */
  ghost predicate DateSorted(s: seq<EventEntity>) {
    forall i, j | 0 <= i < j < |s| :: LessOrEqual(s[i].date, s[j].date)
  }

  lemma FirstIsLeast(s: seq<EventEntity>)
    requires DateSorted(s) && |s| > 0
    ensures forall i | 0 <= i < |s| :: LessOrEqual(s[0].date, s[i].date)
  {
    LessIrreflexive(s[0].date);
  }

  /** Puts `e` in front of the first entry it does not sort after. */
  function InsertByDate(s: seq<EventEntity>, e: EventEntity): (r: seq<EventEntity>)
    ensures multiset(r) == multiset(s) + multiset{e}
  {
    if |s| == 0 then [e]
    else if LessOrEqual(e.date, s[0].date) then [e] + s
    else
      assert s == [s[0]] + s[1..];
      [s[0]] + InsertByDate(s[1..], e)
  }

  lemma InsertByDateMembers(s: seq<EventEntity>, e: EventEntity)
    ensures forall x :: x in InsertByDate(s, e) <==> x in s || x == e
  {
    var r := InsertByDate(s, e);
    forall x
      ensures x in r <==> x in s || x == e
    {
      assert x in r <==> x in multiset(r);
      assert x in s <==> x in multiset(s);
    }
  }

  /** Inserting by date into a date-sorted list keeps it date-sorted. */
  lemma {:induction false} InsertByDateSorted(s: seq<EventEntity>, e: EventEntity)
    requires DateSorted(s)
    ensures DateSorted(InsertByDate(s, e))
  {
    if |s| > 0 {
      FirstIsLeast(s);
      var r := InsertByDate(s, e);
      if LessOrEqual(e.date, s[0].date) {
        forall i | 0 <= i < |s|
          ensures LessOrEqual(e.date, s[i].date)
        {
          LessOrEqualTransitive(e.date, s[0].date, s[i].date);
        }
      } else {
        var rest := InsertByDate(s[1..], e);
        InsertByDateSorted(s[1..], e);
        LessOrEqualTotal(e.date, s[0].date);
        forall i | 0 <= i < |rest|
          ensures LessOrEqual(s[0].date, rest[i].date)
        {
          assert rest[i] in multiset(rest);
          if rest[i] != e {
            assert rest[i] in s[1..];
          }
        }
      }
    }
  }

  /** Inserting an entry with a new id keeps ids distinct. */
  lemma {:induction false} InsertByDateDistinct(s: seq<EventEntity>, e: EventEntity)
    requires DistinctIds(s) && forall i | 0 <= i < |s| :: s[i].id != e.id
    ensures DistinctIds(InsertByDate(s, e))
  {
    if |s| > 0 && !LessOrEqual(e.date, s[0].date) {
      var rest := InsertByDate(s[1..], e);
      InsertByDateDistinct(s[1..], e);
      forall i | 0 <= i < |rest|
        ensures s[0].id != rest[i].id
      {
        assert rest[i] in multiset(rest);
        if rest[i] != e {
          assert rest[i] in s[1..];
        }
      }
    }
  }

  /** `s` lists, each once, exactly the rows of `t` whose ids are not in `pending`. */
  ghost predicate ListsRowsExcept(t: Table, pending: set<int>, s: seq<EventEntity>) {
    && (forall i | 0 <= i < |s| :: s[i].id in t.rows && t.rows[s[i].id] == s[i] && s[i].id !in pending)
    && (forall k | k in t.rows && k !in pending :: t.rows[k] in s)
    && DistinctIds(s)
  }

  /** Adding the row under `key` to a partial listing moves `key` out of the pending ids. */
  lemma ListingStep(t: Table, pending: set<int>, s: seq<EventEntity>, key: int, s': seq<EventEntity>)
    requires Valid(t) && pending <= t.rows.Keys && key in pending
    requires ListsRowsExcept(t, pending, s)
    requires forall x :: x in s' <==> x in s || x == t.rows[key]
    requires DistinctIds(s')
    ensures ListsRowsExcept(t, pending - {key}, s')
  {
    forall i | 0 <= i < |s'|
      ensures s'[i].id in t.rows && t.rows[s'[i].id] == s'[i] && s'[i].id !in pending - {key}
    {
      assert s'[i] in s';
      if s'[i] in s {
        var j :| 0 <= j < |s| && s[j] == s'[i];
      }
    }
  }

  lemma HasMember(s: set<int>)
    ensures s != {} ==> exists k :: k in s
  {
    if forall k :: k !in s {
      assert forall k :: k in s <==> k in {};
    }
  }

  /** `SELECT * FROM events ORDER BY date ASC`, as one snapshot of the live query. */
  method GetAllEvents(t: Table) returns (r: seq<EventEntity>)
    requires Valid(t)
    ensures ListsRows(t, r)
    ensures DateSorted(r)
  {
    var pending := t.rows.Keys;
    r := [];
    while pending != {}
      invariant pending <= t.rows.Keys
      invariant ListsRowsExcept(t, pending, r)
      invariant DateSorted(r)
      decreases |pending|
    {
      HasMember(pending);
      var key :| key in pending;
      var row := t.rows[key];
      InsertByDateSorted(r, row);
      InsertByDateDistinct(r, row);
      InsertByDateMembers(r, row);
      ListingStep(t, pending, r, key, InsertByDate(r, row));
      r := InsertByDate(r, row);
      pending := pending - {key};
    }
  }

  /** `SELECT * FROM events`: the same rows, in an order nothing promises. */
  method GetAllEventsOnce(t: Table) returns (r: seq<EventEntity>)
    requires Valid(t)
    ensures ListsRows(t, r)
  {
    var pending := t.rows.Keys;
    r := [];
    while pending != {}
      invariant pending <= t.rows.Keys
      invariant ListsRowsExcept(t, pending, r)
      decreases |pending|
    {
      HasMember(pending);
      var key :| key in pending;
      ListingStep(t, pending, r, key, r + [t.rows[key]]);
      r := r + [t.rows[key]];
      pending := pending - {key};
    }
  }

  /** In a list without repeated ids every entry occurs once. */
  lemma {:induction false} DistinctOccurrences(s: seq<EventEntity>, x: EventEntity)
    requires DistinctIds(s)
    ensures multiset(s)[x] == if x in s then 1 else 0
  {
    if |s| > 0 {
      var tail := s[1..];
      assert s == [s[0]] + tail;
      DistinctOccurrences(tail, x);
      if x == s[0] {
        assert x !in tail;
      }
    }
  }

  /** Two listings of the same table are permutations of each other. */
  lemma ListingsArePermutations(t: Table, a: seq<EventEntity>, b: seq<EventEntity>)
    requires ListsRows(t, a) && ListsRows(t, b)
    ensures multiset(a) == multiset(b)
  {
    forall x
      ensures multiset(a)[x] == multiset(b)[x]
    {
      DistinctOccurrences(a, x);
      DistinctOccurrences(b, x);
      if x in a {
        assert t.rows[x.id] in b;
      }
      if x in b {
        assert t.rows[x.id] in a;
      }
    }
  }

  /** The ids a list carries. */
  ghost function Ids(s: seq<EventEntity>): set<int> {
    set i | 0 <= i < |s| :: s[i].id
  }

  lemma {:induction false} DistinctIdsCount(s: seq<EventEntity>)
    requires DistinctIds(s)
    ensures |Ids(s)| == |s|
  {
    if |s| > 0 {
      var tail := s[1..];
      DistinctIdsCount(tail);
      assert Ids(s) == {s[0].id} + Ids(tail);
      assert s[0].id !in Ids(tail);
    }
  }

  /** A listing has one entry per row. */
  lemma ListingLength(t: Table, s: seq<EventEntity>)
    requires Valid(t) && ListsRows(t, s)
    ensures |s| == |t.rows|
  {
    DistinctIdsCount(s);
    forall k | k in t.rows
      ensures k in Ids(s)
    {
      var i :| 0 <= i < |s| && s[i] == t.rows[k];
      assert s[i].id == k;
    }
    assert Ids(s) == t.rows.Keys;
  }

  /** After `deleteAll` the listing is empty. */
  lemma ListingAfterDeleteAll(t: Table, s: seq<EventEntity>)
    requires Valid(t) && ListsRows(DeleteAll(t), s)
    ensures s == []
  {
    ListingLength(DeleteAll(t), s);
  }

  /** After inserting a new row, every listing holds it exactly once. */
  lemma ListingAfterInsert(t: Table, e: EventEntity, s: seq<EventEntity>)
    requires Valid(t) && e.id == 0
    requires ListsRows(InsertEvent(t, e), s)
    ensures multiset(s)[e.(id := AssignedId(t, e))] == 1
  {
    var k := AssignedId(t, e);
    DistinctOccurrences(s, e.(id := k));
    assert InsertEvent(t, e).rows[k] in s;
  }
}
