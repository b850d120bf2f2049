/** The `messages` table and the three statements run against it
    (api/index.ts:31-83), as pure operations on an in-memory log of rows. */
module MessageStore {
  import opened Wrappers
  import opened Seqs

  /** One row of the table; `timestamp` is the clock value at insertion. */
  datatype Row = Row(
    message: string,
    author: string,
    expedition: string,
    destination: string,
    timestamp: nat)

  /** The table in insertion order. */
  type Table = seq<Row>

  /** The row belongs to the conversation of `a` and `b`, in either direction. */
  predicate InPair(r: Row, a: string, b: string) {
    (r.expedition == a && r.destination == b) || (r.expedition == b && r.destination == a)
  }

  /** The row is one that the prune statement deletes: of the pair, strictly inside the bounds. */
  predicate InPruneRange(r: Row, a: string, b: string, start: nat, end: nat) {
    InPair(r, a, b) && start < r.timestamp < end
  }

  /** Timestamps never decrease along the sequence. */
  predicate Sorted(t: seq<Row>) {
    forall i, j :: 0 <= i < j < |t| ==> t[i].timestamp <= t[j].timestamp
  }

  /** Timestamps strictly increase along the sequence: no two rows tie. */
  predicate StrictlySorted(t: seq<Row>) {
    forall i, j :: 0 <= i < j < |t| ==> t[i].timestamp < t[j].timestamp
  }

  /** Every row of `t` was stamped strictly before `now`. */
  predicate StampedBefore(t: seq<Row>, now: nat) {
    forall i :: 0 <= i < |t| ==> t[i].timestamp < now
  }

  /** Every row of `t` was stamped no later than `now`. */
  predicate StampedBy(t: seq<Row>, now: nat) {
    forall i :: 0 <= i < |t| ==> t[i].timestamp <= now
  }

  /** `InPair` and `InPruneRange` as function values, one term per argument list. */
  function PairTest(a: string, b: string): Row -> bool {
    (r: Row) => InPair(r, a, b)
  }

  function KeepTest(a: string, b: string, start: nat, end: nat): Row -> bool {
    (r: Row) => !InPruneRange(r, a, b, start, end)
  }

  /** The rows of the conversation of `a` and `b`, in table order. */
  function PairRows(t: Table, a: string, b: string): seq<Row> {
    Filter(t, PairTest(a, b))
  }

  /** Places `r` before the first row not earlier than it. */
  function Insert(r: Row, s: seq<Row>): (u: seq<Row>)
    requires Sorted(s)
    ensures Sorted(u)
    ensures multiset(u) == multiset(s) + multiset{r}
    ensures u[0] == r || (|s| > 0 && u[0] == s[0])
  {
    if |s| == 0 then [r]
    else if r.timestamp <= s[0].timestamp then
      ConsSorted(r, s);
      [r] + s
    else
      var rest := Insert(r, s[1..]);
      assert s == [s[0]] + s[1..];
      ConsSorted(s[0], rest);
      [s[0]] + rest
  }

  /** A row no later than the head of a sorted sequence can go in front of it. */
  lemma {:induction false} ConsSorted(x: Row, s: seq<Row>)
    requires Sorted(s) && (|s| > 0 ==> x.timestamp <= s[0].timestamp)
    ensures Sorted([x] + s)
  {
    var u := [x] + s;
    forall i, j | 0 <= i < j < |u|
      ensures u[i].timestamp <= u[j].timestamp
    {
      if i > 0 {
        assert u[i] == s[i - 1] && u[j] == s[j - 1];
      } else {
        assert u[j] == s[j - 1];
      }
    }
  }

  /** Orders rows by timestamp; rows with equal timestamps keep their table order. */
  function SortByTime(s: seq<Row>): (u: seq<Row>)
    ensures Sorted(u)
    ensures multiset(u) == multiset(s)
  {
    if |s| == 0 then []
    else
      assert s == [s[0]] + s[1..];
      Insert(s[0], SortByTime(s[1..]))
  }

  /** `saveMessage`: appends one row stamped `now`; a storage failure (`!up`) changes nothing. */
  function SaveMessage(t: Table, up: bool, now: nat, message: string, author: string,
                       expedition: string, destination: string): (t': Table)
    ensures !up ==> t' == t
    ensures up ==> |t'| == |t| + 1 && t'[..|t|] == t
    ensures up ==> t'[|t|] == Row(message, author, expedition, destination, now)
  {
    if up then t + [Row(message, author, expedition, destination, now)] else t
  }

  /** `getMessages`: the pair's rows in either direction, ordered by timestamp;
      `None` when the query fails (the function then returns `undefined`). */
  function GetMessages(t: Table, up: bool, a: string, b: string): (r: Option<seq<Row>>)
    ensures r.None? <==> !up
    ensures r.Some? ==> Sorted(r.value)
    ensures r.Some? ==> forall x :: multiset(r.value)[x] == if InPair(x, a, b) then multiset(t)[x] else 0
  {
    FilterCount(t, PairTest(a, b));
    if up then Some(SortByTime(PairRows(t, a, b))) else None
  }

  /** `cleanDatabase`: deletes the pair's rows with `start < timestamp < end`;
      a storage failure changes nothing. */
  function CleanDatabase(t: Table, up: bool, a: string, b: string, start: nat, end: nat): (t': Table)
    ensures !up ==> t' == t
    ensures forall x :: multiset(t')[x] == if up && InPruneRange(x, a, b, start, end) then 0 else multiset(t)[x]
  {
    FilterCount(t, KeepTest(a, b, start, end));
    if up then Filter(t, KeepTest(a, b, start, end)) else t
  }

  // ---- Properties of the query ----

  /** Sorting an already ordered sequence leaves it as it is. */
  lemma {:induction false} SortByTimeSorted(s: seq<Row>)
    requires Sorted(s)
    ensures SortByTime(s) == s
  {
    if |s| > 0 {
      SortByTimeSorted(s[1..]);
    }
  }

  /** The query does not depend on the order of the two participants. */
  lemma {:induction false} GetMessagesSymmetric(t: Table, up: bool, a: string, b: string)
    ensures GetMessages(t, up, a, b) == GetMessages(t, up, b, a)
  {
    FilterCongruent(t, PairTest(a, b), PairTest(b, a));
  }

  /** When the conversation's rows were stamped by a clock that strictly increases,
      the query returns them in insertion order. The proof uses only the query's
      contract, so it holds for any order the database picks among equal timestamps. */
  lemma {:induction false} GetMessagesInsertionOrder(t: Table, a: string, b: string)
    requires StrictlySorted(PairRows(t, a, b))
    ensures GetMessages(t, true, a, b) == Some(PairRows(t, a, b))
  {
    var r := GetMessages(t, true, a, b).value;
    var p := PairRows(t, a, b);
    FilterCount(t, PairTest(a, b));
    assert multiset(r) == multiset(p);
    SortedPermutationUnique(r, p);
  }

  /** A sorted permutation of a sequence without ties is that sequence. */
  lemma {:induction false} SortedPermutationUnique(r: seq<Row>, p: seq<Row>)
    requires Sorted(r) && StrictlySorted(p) && multiset(r) == multiset(p)
    ensures r == p
    decreases |p|
  {
    assert |r| == |multiset(r)| == |multiset(p)| == |p|;
    if |p| > 0 {
      SortedHeadsAgree(r, p);
      TailsPermutation(r, p);
      SortedPermutationUnique(r[1..], p[1..]);
    }
  }

  /** The first rows of the two orders agree: both hold the earliest row. */
  lemma {:induction false} SortedHeadsAgree(r: seq<Row>, p: seq<Row>)
    requires Sorted(r) && StrictlySorted(p) && multiset(r) == multiset(p)
    requires |r| > 0 && |p| > 0
    ensures r[0] == p[0]
  {
    assert r[0] in multiset(p) && p[0] in multiset(r);
    var k :| 0 <= k < |p| && p[k] == r[0];
    var j :| 0 <= j < |r| && r[j] == p[0];
    assert r[0].timestamp <= r[j].timestamp;
    assert p[0].timestamp <= p[k].timestamp;
    assert k == 0;
  }

  /** Filtering keeps a table sorted. */
  lemma {:induction false} FilterSorted(t: seq<Row>, p: Row -> bool)
    requires Sorted(t)
    ensures Sorted(Filter(t, p))
  {
    if |t| > 0 {
      FilterSorted(t[1..], p);
      var rest := Filter(t[1..], p);
      FilterMembers(t[1..], p);
      forall x | x in rest
        ensures t[0].timestamp <= x.timestamp
      {
        assert x in t[1..];
      }
    }
  }

  // ---- Properties of the insert ----

  /** A row saved with a clock value later than every row of its conversation appears
      last in the conversation's query, after everything the query returned before.
      Rows of other conversations may carry any timestamps. */
  lemma {:induction false} SaveThenQuery(t: Table, now: nat, message: string, author: string,
                      expedition: string, destination: string)
    requires StrictlySorted(PairRows(t, expedition, destination))
    requires StampedBefore(PairRows(t, expedition, destination), now)
    ensures StrictlySorted(PairRows(SaveMessage(t, true, now, message, author, expedition, destination),
                                    expedition, destination))
    ensures StrictlySorted(t) && StampedBefore(t, now) ==>
              StrictlySorted(SaveMessage(t, true, now, message, author, expedition, destination))
    ensures GetMessages(SaveMessage(t, true, now, message, author, expedition, destination), true, expedition, destination)
         == Some(GetMessages(t, true, expedition, destination).value + [Row(message, author, expedition, destination, now)])
  {
    var row := Row(message, author, expedition, destination, now);
    var t' := SaveMessage(t, true, now, message, author, expedition, destination);
    assert t' == t + [row];
    var p := PairTest(expedition, destination);
    assert p(row);
    assert Filter([row], p) == [row] by {
      assert [row][1..] == [];
    }
    FilterAppend(t, [row], p);
    var before := PairRows(t, expedition, destination);
    assert PairRows(t', expedition, destination) == before + [row];
    AppendLatest(before, row);
    if StrictlySorted(t) && StampedBefore(t, now) {
      AppendLatest(t, row);
    }
    GetMessagesInsertionOrder(t, expedition, destination);
    GetMessagesInsertionOrder(t', expedition, destination);
  }

  /** A row stamped after every row of a sequence without ties extends it without ties. */
  lemma {:induction false} AppendLatest(s: seq<Row>, r: Row)
    requires StrictlySorted(s) && StampedBefore(s, r.timestamp)
    ensures StrictlySorted(s + [r])
  {
    forall i, j | 0 <= i < j < |s + [r]|
      ensures (s + [r])[i].timestamp < (s + [r])[j].timestamp
    {
      if j < |s| {
        assert (s + [r])[i] == s[i] && (s + [r])[j] == s[j];
      } else {
        assert (s + [r])[i] == s[i] && (s + [r])[j] == r;
      }
    }
  }

  /** Saving a row of another conversation leaves a pair's query untouched. */
  lemma {:induction false} SaveOtherPair(t: Table, now: nat, message: string, author: string,
                      expedition: string, destination: string, a: string, b: string)
    requires !InPair(Row(message, author, expedition, destination, now), a, b)
    ensures GetMessages(SaveMessage(t, true, now, message, author, expedition, destination), true, a, b)
         == GetMessages(t, true, a, b)
  {
    var row := Row(message, author, expedition, destination, now);
    var t' := SaveMessage(t, true, now, message, author, expedition, destination);
    assert t' == t + [row];
    var p := PairTest(a, b);
    assert !p(row);
    assert Filter([row], p) == [] by {
      assert [row][1..] == [];
    }
    FilterAppend(t, [row], p);
    assert PairRows(t', a, b) == PairRows(t, a, b);
  }

  // ---- Properties of the prune ----

  /** Exactly the pair's rows strictly inside the bounds go; the boundary rows
      and every other conversation's rows stay. */
  lemma {:induction false} CleanDatabaseExact(t: Table, a: string, b: string, start: nat, end: nat, x: Row)
    requires x in t
    ensures x in CleanDatabase(t, true, a, b, start, end) <==> !InPruneRange(x, a, b, start, end)
    ensures x.timestamp == start || x.timestamp == end ==> x in CleanDatabase(t, true, a, b, start, end)
    ensures !InPair(x, a, b) ==> x in CleanDatabase(t, true, a, b, start, end)
  {
  }

  /** An empty or inverted range deletes nothing. */
  lemma {:induction false} CleanDatabaseEmptyRange(t: Table, up: bool, a: string, b: string, start: nat, end: nat)
    requires start >= end
    ensures CleanDatabase(t, up, a, b, start, end) == t
  {
    FilterKeepsAll(t, KeepTest(a, b, start, end));
  }

  /** The prune does not depend on the order of the two participants. */
  lemma {:induction false} CleanDatabaseSymmetric(t: Table, up: bool, a: string, b: string, start: nat, end: nat)
    ensures CleanDatabase(t, up, a, b, start, end) == CleanDatabase(t, up, b, a, start, end)
  {
    FilterCongruent(t, KeepTest(a, b, start, end),
                       KeepTest(b, a, start, end));
  }

  /** Pruning the same range twice is pruning it once. */
  lemma {:induction false} CleanDatabaseIdempotent(t: Table, up: bool, a: string, b: string, start: nat, end: nat)
    ensures CleanDatabase(CleanDatabase(t, up, a, b, start, end), up, a, b, start, end)
         == CleanDatabase(t, up, a, b, start, end)
  {
    FilterIdempotent(t, KeepTest(a, b, start, end));
  }

  /** The prune keeps the remaining rows in their order. */
  lemma {:induction false} CleanDatabaseSorted(t: Table, up: bool, a: string, b: string, start: nat, end: nat)
    requires Sorted(t)
    ensures Sorted(CleanDatabase(t, up, a, b, start, end))
  {
    FilterSorted(t, KeepTest(a, b, start, end));
  }
}
