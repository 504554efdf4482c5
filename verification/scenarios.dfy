/**
  The concrete outcomes the repository's tests expect, derived from the model
  for any distinct members standing in for the tests' letters. A pop result
  is pinned down through `Extraction.SortedPrefixUnique`: any sequence meeting
  `Pop`'s postcondition equals the expected one.
 */
module Scenarios {
  import opened ScoreCodec
  import opened UpfQueue
  import opened Extraction

  /** The priorities the tests call HIGH and LOW. */
  const High: Priority := 2
  const Low: Priority := 6

  /** `insert([m], p)` with the default chunk size is a single upsert. */
  lemma InsertSingle(q: Queue, m: Member, p: Priority)
    ensures Insert(q, [m], p, DefaultChunkSize) == Upsert(q, p, m)
  {
    assert Requests([m], p) == [Request(p, m)];
    assert RunScript(q, [Request(p, m)]) == RunScript(Upsert(q, p, m), []);
  }

  /** `insert([a, b], p)` with the default chunk size is two upserts in order. */
  lemma InsertPair(q: Queue, a: Member, b: Member, p: Priority)
    ensures Insert(q, [a, b], p, DefaultChunkSize) == Upsert(Upsert(q, p, a), p, b)
  {
    var reqs := Requests([a, b], p);
    assert reqs == [Request(p, a), Request(p, b)];
    assert reqs[1..] == [Request(p, b)];
    assert RunScript(Upsert(q, p, a), [Request(p, b)]) == RunScript(Upsert(Upsert(q, p, a), p, b), []);
  }

  /** Inserting a concatenation with the default chunk size is inserting its parts in turn. */
  lemma InsertConcat(q: Queue, a: seq<Member>, b: seq<Member>, p: Priority)
    ensures Insert(q, a + b, p, DefaultChunkSize)
            == Insert(Insert(q, a, p, DefaultChunkSize), b, p, DefaultChunkSize)
  {
    RequestsAppend(a, b, p);
    ScriptAppend(q, Requests(a, p), Requests(b, p));
  }

  /** Upserting an absent member adds it with the next sequence number. */
  lemma UpsertAbsent(q: Queue, p: Priority, m: Member)
    requires m !in q.entries
    ensures Upsert(q, p, m) == Queue(q.entries[m := Entry(p, q.counter + 1)], q.counter + 1)
  {
  }

  /** `insert([a, b], p)` of two different absent members adds both, in that order. */
  lemma InsertTwoAbsent(q: Queue, a: Member, b: Member, p: Priority)
    requires a !in q.entries && b !in q.entries && a != b
    ensures Insert(q, [a, b], p, DefaultChunkSize)
            == Queue(q.entries[a := Entry(p, q.counter + 1)][b := Entry(p, q.counter + 2)], q.counter + 2)
  {
    InsertPair(q, a, b, p);
    UpsertAbsent(q, p, a);
    UpsertAbsent(Queue(q.entries[a := Entry(p, q.counter + 1)], q.counter + 1), p, b);
  }

  /** Retrieval order is transitive. */
  lemma BelowTransitive(a: Entry, b: Entry, c: Entry)
    requires Below(a, b) && Below(b, c)
    ensures Below(a, c)
  {
  }

  /**
    A listing of all members in which each one comes before the next in
    retrieval order is the sorted prefix for any count at least its length.
   */
  lemma {:induction false} ChainIsSortedPrefix(e: map<Member, Entry>, n: nat, xs: seq<Member>)
    requires forall i :: 0 <= i < |xs| ==> xs[i] in e
    requires forall i :: 0 <= i < |xs| - 1 ==> Below(e[xs[i]], e[xs[i + 1]])
    requires forall x :: x in e ==> x in xs
    requires |xs| == |e| <= n
    ensures SortedPrefix(e, n, xs)
  {
    forall i, j | 0 <= i < j < |xs|
      ensures Below(e[xs[i]], e[xs[j]])
    {
      ChainBelow(e, xs, i, j);
    }
  }

  lemma {:induction false} ChainBelow(e: map<Member, Entry>, xs: seq<Member>, i: nat, j: nat)
    requires forall k :: 0 <= k < |xs| ==> xs[k] in e
    requires forall k :: 0 <= k < |xs| - 1 ==> Below(e[xs[k]], e[xs[k + 1]])
    requires i < j < |xs|
    ensures Below(e[xs[i]], e[xs[j]])
    decreases j - i
  {
    if i + 1 < j {
      ChainBelow(e, xs, i + 1, j);
      BelowTransitive(e[xs[i]], e[xs[i + 1]], e[xs[j]]);
    }
  }

  /** Five pairwise different members. */
  predicate Distinct5(a: Member, b: Member, c: Member, d: Member, e: Member) {
    && a != b && a != c && a != d && a != e
    && b != c && b != d && b != e
    && c != d && c != e
    && d != e
  }

  /** The queue after each insert of the priority test. */
  function PriorityAfter1(c: Member): (r: Queue) {
    Queue(map[c := Entry(Low, 1)], 1)
  }

  function PriorityAfter2(b: Member, c: Member): (r: Queue) {
    Queue(map[c := Entry(Low, 1), b := Entry(High, 2)], 2)
  }

  function PriorityAfter3(a: Member, b: Member, c: Member, d: Member): (r: Queue) {
    Queue(map[c := Entry(Low, 1), b := Entry(High, 2), d := Entry(Low, 3), a := Entry(Low, 4)], 4)
  }

  function PriorityAfter4(a: Member, b: Member, c: Member, d: Member, e: Member): (r: Queue) {
    Queue(map[c := Entry(Low, 1), b := Entry(High, 2), d := Entry(Low, 3), a := Entry(Low, 4), e := Entry(High, 5)], 5)
  }

  lemma PriorityInserts12(b: Member, c: Member)
    requires b != c
    ensures Insert(Empty(), [c], Low, DefaultChunkSize) == PriorityAfter1(c)
    ensures Insert(PriorityAfter1(c), [b], High, DefaultChunkSize) == PriorityAfter2(b, c)
  {
    InsertSingle(Empty(), c, Low);
    InsertSingle(PriorityAfter1(c), b, High);
    UpsertAbsent(PriorityAfter1(c), High, b);
  }

  lemma PriorityInsert3(a: Member, b: Member, c: Member, d: Member)
    requires a != b && a != c && a != d && b != d && c != d
    ensures Insert(PriorityAfter2(b, c), [d, a], Low, DefaultChunkSize) == PriorityAfter3(a, b, c, d)
  {
    InsertTwoAbsent(PriorityAfter2(b, c), d, a, Low);
  }


  lemma PriorityInsert4(a: Member, b: Member, c: Member, d: Member, e: Member)
    requires Distinct5(a, b, c, d, e)
    ensures Insert(PriorityAfter3(a, b, c, d), [e], High, DefaultChunkSize) == PriorityAfter4(a, b, c, d, e)
  {
    InsertSingle(PriorityAfter3(a, b, c, d), e, High);
    UpsertAbsent(PriorityAfter3(a, b, c, d), High, e);
  }

  lemma PriorityValid(a: Member, b: Member, c: Member, d: Member, e: Member)
    requires Distinct5(a, b, c, d, e)
    ensures Valid(PriorityAfter4(a, b, c, d, e))
  {
  }

  lemma PriorityOrder(a: Member, b: Member, c: Member, d: Member, e: Member)
    requires Distinct5(a, b, c, d, e)
    ensures SortedPrefix(PriorityAfter4(a, b, c, d, e).entries, 10, [b, e, c, d, a])
  {
    var m, xs := PriorityAfter4(a, b, c, d, e).entries, [b, e, c, d, a];
    assert m.Keys == {a, b, c, d, e};
    assert |m| == 5;
    ChainIsSortedPrefix(m, 10, xs);
  }

  /**
    C at LOW, B at HIGH, D and A at LOW, E at HIGH: each member holds its
    priority and its insertion number, and pop(10) yields B, E, C, D, A.
   */
  lemma PriorityScenario(a: Member, b: Member, c: Member, d: Member, e: Member)
    requires Distinct5(a, b, c, d, e)
    ensures var q1 := Insert(Empty(), [c], Low, DefaultChunkSize);
            var q2 := Insert(q1, [b], High, DefaultChunkSize);
            var q3 := Insert(q2, [d, a], Low, DefaultChunkSize);
            var q4 := Insert(q3, [e], High, DefaultChunkSize);
            && q4 == PriorityAfter4(a, b, c, d, e)
            && forall popped :: SortedPrefix(q4.entries, 10, popped) ==> popped == [b, e, c, d, a]
  {
    var q := PriorityAfter4(a, b, c, d, e);
    PriorityInserts12(b, c);
    PriorityInsert3(a, b, c, d);
    PriorityInsert4(a, b, c, d, e);
    PriorityValid(a, b, c, d, e);
    PriorityOrder(a, b, c, d, e);
    forall popped | SortedPrefix(q.entries, 10, popped)
      ensures popped == [b, e, c, d, a]
    {
      SortedPrefixUnique(q, 10, popped, [b, e, c, d, a]);
    }
  }

  /** Four members queued at the default priority, in the order given. */
  function FourQueued(a: Member, b: Member, c: Member, d: Member): (r: Queue) {
    Queue(map[a := Entry(LowestPriority, 1), b := Entry(LowestPriority, 2),
              c := Entry(LowestPriority, 3), d := Entry(LowestPriority, 4)], 4)
  }

  function TwoQueued(a: Member, b: Member): (r: Queue) {
    Queue(map[a := Entry(LowestPriority, 1), b := Entry(LowestPriority, 2)], 2)
  }

  lemma FourSplit(a: Member, b: Member, c: Member, d: Member)
    ensures Insert(Empty(), [a, b, c, d], LowestPriority, DefaultChunkSize)
            == Insert(Insert(Empty(), [a, b], LowestPriority, DefaultChunkSize), [c, d], LowestPriority, DefaultChunkSize)
  {
    assert [a, b, c, d] == [a, b] + [c, d];
    InsertConcat(Empty(), [a, b], [c, d], LowestPriority);
  }

  lemma FourInsertAB(a: Member, b: Member)
    requires a != b
    ensures Insert(Empty(), [a, b], LowestPriority, DefaultChunkSize) == TwoQueued(a, b)
  {
    InsertTwoAbsent(Empty(), a, b, LowestPriority);
  }


  lemma FourInsertCD(a: Member, b: Member, c: Member, d: Member)
    requires a != b && a != c && a != d && b != c && b != d && c != d
    ensures Insert(TwoQueued(a, b), [c, d], LowestPriority, DefaultChunkSize) == FourQueued(a, b, c, d)
  {
    InsertTwoAbsent(TwoQueued(a, b), c, d, LowestPriority);
  }


  lemma FourInserts(a: Member, b: Member, c: Member, d: Member)
    requires a != b && a != c && a != d && b != c && b != d && c != d
    ensures Insert(Empty(), [a, b, c, d], LowestPriority, DefaultChunkSize) == FourQueued(a, b, c, d)
  {
    FourSplit(a, b, c, d);
    FourInsertAB(a, b);
    FourInsertCD(a, b, c, d);
  }

  lemma FourAgain(a: Member, b: Member, c: Member, d: Member)
    ensures Insert(FourQueued(a, b, c, d), [b, c], LowestPriority, DefaultChunkSize) == FourQueued(a, b, c, d)
  {
    var q := FourQueued(a, b, c, d);
    InsertPair(q, b, c, LowestPriority);
    UpsertNoDemotion(q, LowestPriority, b);
    UpsertNoDemotion(q, LowestPriority, c);
  }

  lemma FourValid(a: Member, b: Member, c: Member, d: Member)
    requires a != b && a != c && a != d && b != c && b != d && c != d
    ensures Valid(FourQueued(a, b, c, d))
  {
  }

  lemma FourOrder(a: Member, b: Member, c: Member, d: Member)
    requires a != b && a != c && a != d && b != c && b != d && c != d
    ensures SortedPrefix(FourQueued(a, b, c, d).entries, 4, [a, b, c, d])
  {
    var m, xs := FourQueued(a, b, c, d).entries, [a, b, c, d];
    assert m.Keys == {a, b, c, d};
    assert |m| == 4;
    ChainIsSortedPrefix(m, 4, xs);
  }

  /**
    A, B, C, D inserted, then B and C inserted again at the same priority:
    nothing moves, the counter included, and pop(4) still yields A, B, C, D.
   */
  lemma DuplicatesRemainInPlace(a: Member, b: Member, c: Member, d: Member)
    requires a != b && a != c && a != d && b != c && b != d && c != d
    ensures var q0 := Insert(Empty(), [a, b, c, d], LowestPriority, DefaultChunkSize);
            var q1 := Insert(q0, [b, c], LowestPriority, DefaultChunkSize);
            && q1 == q0
            && forall popped :: SortedPrefix(q1.entries, 4, popped) ==> popped == [a, b, c, d]
  {
    var q := FourQueued(a, b, c, d);
    FourInserts(a, b, c, d);
    FourAgain(a, b, c, d);
    FourValid(a, b, c, d);
    FourOrder(a, b, c, d);
    forall popped | SortedPrefix(q.entries, 4, popped)
      ensures popped == [a, b, c, d]
    {
      SortedPrefixUnique(q, 4, popped, [a, b, c, d]);
    }
  }

  /** A member inserted at LOW and then at HIGH, or the other way round. */
  function LowThenHigh(a: Member): (r: Queue) {
    Insert(Insert(Empty(), [a], Low, DefaultChunkSize), [a], High, DefaultChunkSize)
  }

  function HighThenLow(a: Member): (r: Queue) {
    Insert(Insert(Empty(), [a], High, DefaultChunkSize), [a], Low, DefaultChunkSize)
  }

  lemma LowThenHighEndsHigh(a: Member)
    ensures LowThenHigh(a) == Queue(map[a := Entry(High, 1)], 1)
  {
    var atLow := Insert(Empty(), [a], Low, DefaultChunkSize);
    InsertSingle(Empty(), a, Low);
    InsertSingle(atLow, a, High);
  }

  lemma HighThenLowEndsHigh(a: Member)
    ensures HighThenLow(a) == Queue(map[a := Entry(High, 1)], 1)
  {
    var atHigh := Insert(Empty(), [a], High, DefaultChunkSize);
    InsertSingle(Empty(), a, High);
    InsertSingle(atHigh, a, Low);
  }

  /** The first insert into an empty queue gives the member sequence number 1. */
  lemma FirstInsert(a: Member, p: Priority)
    ensures Insert(Empty(), [a], p, DefaultChunkSize) == Queue(map[a := Entry(p, 1)], 1)
  {
    InsertSingle(Empty(), a, p);
  }

  /** A queue of one member counts one in that member's class and none in any other. */
  lemma OneMemberCounts(a: Member, p: Priority, k: Priority)
    ensures Count(Queue(map[a := Entry(p, 1)], 1), Some(k)) == Ok(if k == p then 1 else 0)
  {
    var q := Queue(map[a := Entry(p, 1)], 1);
    CountIsClassSize(q, k);
    if k == p {
      assert Class(q, k) == {a};
    } else {
      assert Class(q, k) == {};
    }
  }

  /**
    A inserted at LOW and then at HIGH moves to the HIGH class; inserted at
    HIGH and then at LOW it stays in the HIGH class.
   */
  lemma DuplicateWithOtherPriority(a: Member)
    ensures var atLow := Insert(Empty(), [a], Low, DefaultChunkSize);
            Count(atLow, Some(High)) == Ok(0) && Count(atLow, Some(Low)) == Ok(1)
    ensures Count(LowThenHigh(a), Some(High)) == Ok(1) && Count(LowThenHigh(a), Some(Low)) == Ok(0)
    ensures var atHigh := Insert(Empty(), [a], High, DefaultChunkSize);
            Count(atHigh, Some(High)) == Ok(1) && Count(atHigh, Some(Low)) == Ok(0)
    ensures Count(HighThenLow(a), Some(High)) == Ok(1) && Count(HighThenLow(a), Some(Low)) == Ok(0)
  {
    FirstInsert(a, Low);
    FirstInsert(a, High);
    LowThenHighEndsHigh(a);
    HighThenLowEndsHigh(a);
    OneMemberCounts(a, Low, High);
    OneMemberCounts(a, Low, Low);
    OneMemberCounts(a, High, High);
    OneMemberCounts(a, High, Low);
  }
}
