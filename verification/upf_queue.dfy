/**
  A unique priority FIFO queue held in one Redis sorted set plus one sequence
  counter, modelled as an immutable value: a map from member to its
  (priority, sequence number) pair, and the counter. Every operation is one
  atomic transition from a queue value to the next.
 */
module UpfQueue {
  import opened ScoreCodec
  import Chunking

  type Member = string

  /** What the sorted set knows about a member: its score, split into its two parts. */
  datatype Entry = Entry(priority: Priority, seqNo: nat)

  /** The sorted set `name` and the counter `_name_seq`. */
  datatype Queue = Queue(entries: map<Member, Entry>, counter: nat)

  datatype Option<T> = None | Some(value: T)

  datatype Result<T> = Ok(value: T) | ValueError(message: string)

  /** A member of the insert script's argument list: `priority, member`. */
  datatype Request = Request(priority: Priority, member: Member)

  const DefaultChunkSize: nat := 5000

  /** A queue name never used before: no members, counter not yet created. */
  function Empty(): (r: Queue) {
    Queue(map[], 0)
  }

  function Score(e: Entry): (r: nat) {
    ScoreOf(e.priority, e.seqNo)
  }

  /** Retrieval order: higher priority (smaller number) first, then earlier insertion. */
  predicate Below(a: Entry, b: Entry) {
    a.priority < b.priority || (a.priority == b.priority && a.seqNo < b.seqNo)
  }

  /** Every member carries a sequence number the counter has already handed out. */
  predicate SeqsIssued(q: Queue) {
    forall x :: x in q.entries ==> 1 <= q.entries[x].seqNo <= q.counter
  }

  /** No sequence number is held by two members. */
  predicate SeqsDistinct(q: Queue) {
    forall x, y :: x in q.entries && y in q.entries && x != y ==> q.entries[x].seqNo != q.entries[y].seqNo
  }

  /** The invariant of every reachable queue. */
  predicate Valid(q: Queue) {
    q.counter < SeqLimit && SeqsIssued(q) && SeqsDistinct(q)
  }

  function Min(a: int, b: int): (r: int) {
    if a <= b then a else b
  }

  /** `len(queue)`: ZCARD, the number of members; zero exactly when none is queued. */
  function Size(q: Queue): (r: nat)
    ensures r == 0 <==> q.entries == map[]
  {
    |q.entries|
  }

  /**
    One iteration of the insert script. An absent member is added with the
    next sequence number; a present member keeps its sequence number and only
    ever moves to a higher priority.
   */
  function Upsert(q: Queue, p: Priority, m: Member): (r: Queue)
    ensures r.entries.Keys == q.entries.Keys + {m}
    ensures forall x :: x in q.entries && x != m ==> r.entries[x] == q.entries[x]
    ensures m !in q.entries ==> r.entries[m] == Entry(p, q.counter + 1) && r.counter == q.counter + 1
    ensures m in q.entries ==>
              && r.counter == q.counter
              && r.entries[m].seqNo == q.entries[m].seqNo
              && r.entries[m].priority == Min(p, q.entries[m].priority)
  {
    if m !in q.entries then
      Queue(q.entries[m := Entry(p, q.counter + 1)], q.counter + 1)
    else if p < q.entries[m].priority then
      Queue(q.entries[m := q.entries[m].(priority := p)], q.counter)
    else
      q
  }

  /** Re-inserting at the same or a lower priority changes nothing, counter included. */
  lemma UpsertNoDemotion(q: Queue, p: Priority, m: Member)
    requires m in q.entries && p >= q.entries[m].priority
    ensures Upsert(q, p, m) == q
  {
  }

  /** Repeating an upsert has no further effect. */
  lemma UpsertIdempotent(q: Queue, p: Priority, m: Member)
    ensures Upsert(Upsert(q, p, m), p, m) == Upsert(q, p, m)
  {
  }

  lemma UpsertPreservesValid(q: Queue, p: Priority, m: Member)
    requires Valid(q) && q.counter + 1 < SeqLimit
    ensures Valid(Upsert(q, p, m))
  {
  }

  /** The set of members named in a script argument list. */
  function Members(reqs: seq<Request>): (r: set<Member>) {
    set i | 0 <= i < |reqs| :: reqs[i].member
  }

  lemma MembersCons(reqs: seq<Request>)
    requires |reqs| > 0
    ensures Members(reqs) == {reqs[0].member} + Members(reqs[1..])
  {
    forall x | x in Members(reqs)
      ensures x in {reqs[0].member} + Members(reqs[1..])
    {
      var i :| 0 <= i < |reqs| && reqs[i].member == x;
      if i > 0 {
        assert reqs[1..][i - 1].member == x;
      }
    }
  }

  /**
    The insert script: its loop over the argument list, left to right, so a
    member named twice sees the effect of its first occurrence. Afterwards
    every named member is present, and the counter has advanced once per
    distinct member that was absent.
   */
  function RunScript(q: Queue, reqs: seq<Request>): (r: Queue)
    ensures r.entries.Keys == q.entries.Keys + Members(reqs)
    decreases |reqs|
  {
    if |reqs| == 0 then
      q
    else
      MembersCons(reqs);
      RunScript(Upsert(q, reqs[0].priority, reqs[0].member), reqs[1..])
  }

  /** The counter advances once per distinct member the script adds. */
  lemma {:induction false} ScriptCounter(q: Queue, reqs: seq<Request>)
    ensures RunScript(q, reqs).counter == q.counter + |Members(reqs) - q.entries.Keys|
    decreases |reqs|
  {
    if |reqs| > 0 {
      MembersCons(reqs);
      NewMembersCons(q, reqs);
      ScriptCounter(Upsert(q, reqs[0].priority, reqs[0].member), reqs[1..]);
    }
  }

  /** A member the script does not name is left exactly as it was. */
  lemma {:induction false} ScriptUntouched(q: Queue, reqs: seq<Request>, x: Member)
    requires x in q.entries && x !in Members(reqs)
    ensures RunScript(q, reqs).entries[x] == q.entries[x]
    decreases |reqs|
  {
    if |reqs| > 0 {
      MembersCons(reqs);
      ScriptUntouched(Upsert(q, reqs[0].priority, reqs[0].member), reqs[1..], x);
    }
  }

  /** A member already queued keeps its sequence number and is never demoted. */
  lemma {:induction false} ScriptKeepsSeq(q: Queue, reqs: seq<Request>, x: Member)
    requires x in q.entries
    ensures RunScript(q, reqs).entries[x].seqNo == q.entries[x].seqNo
    ensures RunScript(q, reqs).entries[x].priority <= q.entries[x].priority
    decreases |reqs|
  {
    if |reqs| > 0 {
      ScriptKeepsSeq(Upsert(q, reqs[0].priority, reqs[0].member), reqs[1..], x);
    }
  }

  /** A member the script adds gets a sequence number the counter issued during this call. */
  lemma {:induction false} ScriptFreshSeq(q: Queue, reqs: seq<Request>, x: Member)
    requires x in RunScript(q, reqs).entries && x !in q.entries
    ensures q.counter < RunScript(q, reqs).entries[x].seqNo <= RunScript(q, reqs).counter
    decreases |reqs|
  {
    var q1 := Upsert(q, reqs[0].priority, reqs[0].member);
    if x in q1.entries {
      ScriptKeepsSeq(q1, reqs[1..], x);
      ScriptCounter(q1, reqs[1..]);
    } else {
      ScriptFreshSeq(q1, reqs[1..], x);
    }
  }

  /** Every named member ends at a priority at least as high as the one requested for it. */
  lemma ScriptMeetsRequest(q: Queue, before: seq<Request>, req: Request, after: seq<Request>)
    ensures var r := RunScript(q, before + [req] + after);
            req.member in r.entries && r.entries[req.member].priority <= req.priority
  {
    var qb := Upsert(RunScript(q, before), req.priority, req.member);
    ScriptSplit(q, before, req, after);
    ScriptKeepsSeq(qb, after, req.member);
  }

  /** The script seen at one argument: everything before it, its upsert, everything after. */
  lemma ScriptSplit(q: Queue, before: seq<Request>, req: Request, after: seq<Request>)
    ensures RunScript(q, before + [req] + after)
            == RunScript(Upsert(RunScript(q, before), req.priority, req.member), after)
  {
    var qa := RunScript(q, before);
    ScriptAppend(q, before, [req]);
    ScriptAppend(q, before + [req], after);
    assert RunScript(qa, [req]) == RunScript(Upsert(qa, req.priority, req.member), []);
  }

  lemma NewMembersCons(q: Queue, reqs: seq<Request>)
    requires |reqs| > 0
    requires Members(reqs) == {reqs[0].member} + Members(reqs[1..])
    ensures var m := reqs[0].member;
            |Members(reqs) - q.entries.Keys|
            == |Members(reqs[1..]) - (q.entries.Keys + {m})| + (if m in q.entries then 0 else 1)
  {
    var m := reqs[0].member;
    var rest := Members(reqs[1..]) - (q.entries.Keys + {m});
    if m in q.entries {
      assert Members(reqs) - q.entries.Keys == rest;
    } else {
      assert Members(reqs) - q.entries.Keys == rest + {m};
    }
  }

  /** The queue grows by exactly the number of distinct members that were absent. */
  lemma ScriptGrowth(q: Queue, reqs: seq<Request>)
    ensures Size(RunScript(q, reqs)) == Size(q) + |Members(reqs) - q.entries.Keys|
    ensures Size(RunScript(q, reqs)) - Size(q) == RunScript(q, reqs).counter - q.counter
  {
    var r := RunScript(q, reqs);
    var newOnes := Members(reqs) - q.entries.Keys;
    ScriptCounter(q, reqs);
    assert r.entries.Keys == q.entries.Keys + newOnes;
    assert q.entries.Keys * newOnes == {};
  }

  lemma {:induction false} ScriptPreservesValid(q: Queue, reqs: seq<Request>)
    requires Valid(q) && q.counter + |reqs| < SeqLimit
    ensures Valid(RunScript(q, reqs))
    decreases |reqs|
  {
    if |reqs| > 0 {
      var q1 := Upsert(q, reqs[0].priority, reqs[0].member);
      UpsertPreservesValid(q, reqs[0].priority, reqs[0].member);
      ScriptPreservesValid(q1, reqs[1..]);
    }
  }

  /**
    FIFO within one call: a member that was absent and is named for the first
    time after some other member gets the larger sequence number of the two.
   */
  lemma ScriptFifo(q: Queue, before: seq<Request>, req: Request, after: seq<Request>, x: Member)
    requires SeqsIssued(q)
    requires req.member !in q.entries && req.member !in Members(before)
    requires x in Members(before)
    ensures var r := RunScript(q, before + [req] + after);
            x in r.entries && req.member in r.entries && r.entries[x].seqNo < r.entries[req.member].seqNo
  {
    var qa := RunScript(q, before);
    var qb := Upsert(qa, req.priority, req.member);
    ScriptSplit(q, before, req, after);
    ScriptKeepsIssued(q, before);
    ScriptKeepsSeq(qb, after, req.member);
    ScriptKeepsSeq(qb, after, x);
  }

  lemma {:induction false} ScriptKeepsIssued(q: Queue, reqs: seq<Request>)
    requires SeqsIssued(q)
    ensures SeqsIssued(RunScript(q, reqs))
    decreases |reqs|
  {
    if |reqs| > 0 {
      UpsertKeepsIssued(q, reqs[0].priority, reqs[0].member);
      ScriptKeepsIssued(Upsert(q, reqs[0].priority, reqs[0].member), reqs[1..]);
    }
  }

  lemma UpsertKeepsIssued(q: Queue, p: Priority, m: Member)
    requires SeqsIssued(q)
    ensures SeqsIssued(Upsert(q, p, m))
  {
  }

  /** Running the script on two argument lists in turn is running it on their concatenation. */
  lemma {:induction false} ScriptAppend(q: Queue, a: seq<Request>, b: seq<Request>)
    ensures RunScript(q, a + b) == RunScript(RunScript(q, a), b)
    decreases |a|
  {
    if |a| > 0 {
      assert (a + b)[0] == a[0] && (a + b)[1..] == a[1..] + b;
      ScriptAppend(Upsert(q, a[0].priority, a[0].member), a[1..], b);
    } else {
      assert a + b == b;
    }
  }

  /** The argument list `insert` builds for one chunk: every key at the same priority. */
  function Requests(keys: seq<Member>, p: Priority): (r: seq<Request>)
    ensures |r| == |keys| && forall i :: 0 <= i < |keys| ==> r[i] == Request(p, keys[i])
  {
    seq(|keys|, i requires 0 <= i < |keys| => Request(p, keys[i]))
  }

  lemma RequestsAppend(a: seq<Member>, b: seq<Member>, p: Priority)
    ensures Requests(a + b, p) == Requests(a, p) + Requests(b, p)
  {
    var l, r := Requests(a + b, p), Requests(a, p) + Requests(b, p);
    forall i | 0 <= i < |l|
      ensures l[i] == r[i]
    {
      if i < |a| {
        assert r[i] == Requests(a, p)[i];
      } else {
        assert r[i] == Requests(b, p)[i - |a|];
      }
    }
  }

  /** One script call per chunk, in order. */
  function RunChunks(q: Queue, chunks: seq<seq<Member>>, p: Priority): (r: Queue)
    decreases |chunks|
  {
    if |chunks| == 0 then q else RunChunks(RunScript(q, Requests(chunks[0], p)), chunks[1..], p)
  }

  lemma {:induction false} RunChunksFlatten(q: Queue, chunks: seq<seq<Member>>, p: Priority)
    ensures RunChunks(q, chunks, p) == RunScript(q, Requests(Chunking.Flatten(chunks), p))
    decreases |chunks|
  {
    if |chunks| > 0 {
      var rest := Chunking.Flatten(chunks[1..]);
      RequestsAppend(chunks[0], rest, p);
      ScriptAppend(q, Requests(chunks[0], p), Requests(rest, p));
      RunChunksFlatten(RunScript(q, Requests(chunks[0], p)), chunks[1..], p);
    }
  }

  /**
    `insert(keys, priority, chunk_size)`. Splitting into chunks does not change
    the outcome: with a positive chunk size the result is one left-to-right
    pass of the script over all keys. A chunk size of zero inserts nothing.
   */
  function Insert(q: Queue, keys: seq<Member>, p: Priority, chunkSize: nat): (r: Queue)
    ensures chunkSize == 0 ==> r == q
    ensures chunkSize > 0 ==> r == RunScript(q, Requests(keys, p))
  {
    var chunks := Chunking.Chunks(keys, chunkSize);
    RunChunksFlatten(q, chunks, p);
    RunChunks(q, chunks, p)
  }

  /** Inserting keeps the invariant while the counter stays inside the score width. */
  lemma InsertPreservesValid(q: Queue, keys: seq<Member>, p: Priority, chunkSize: nat)
    requires Valid(q) && q.counter + |keys| < SeqLimit
    ensures Valid(Insert(q, keys, p, chunkSize))
  {
    if chunkSize > 0 {
      ScriptPreservesValid(q, Requests(keys, p));
    }
  }

  /**
    `delete(keys)`: ZREM of the listed members. An empty list issues no command
    and returns nothing; otherwise the reply is how many members were removed.
   */
  function Delete(q: Queue, keys: seq<Member>): (r: (Queue, Option<nat>))
    ensures r.0.entries == q.entries - (set k | k in keys)
    ensures r.0.counter == q.counter
    ensures r.1.None? <==> |keys| == 0
    ensures r.1.Some? ==> r.1.value == Size(q) - Size(r.0)
  {
    if |keys| == 0 then
      (q, None)
    else
      var gone := set k | k in keys;
      var rest := q.entries - gone;
      assert q.entries.Keys == rest.Keys + (gone * q.entries.Keys);
      assert rest.Keys * (gone * q.entries.Keys) == {};
      (Queue(rest, q.counter), Some(|gone * q.entries.Keys|))
  }

  /** Deleting only absent members, or none, leaves the queue as it was. */
  lemma DeleteAbsent(q: Queue, keys: seq<Member>)
    requires forall k :: k in keys ==> k !in q.entries
    ensures Delete(q, keys).0 == q
  {
    assert q.entries - (set k | k in keys) == q.entries;
  }

  lemma DeletePreservesValid(q: Queue, keys: seq<Member>)
    requires Valid(q)
    ensures Valid(Delete(q, keys).0)
  {
  }
  /** A ZCOUNT score range: inclusive lower bound and exclusive upper bound, `None` for infinite. */
  datatype Bounds = Bounds(lo: Option<int>, hi: Option<int>)

  predicate InBounds(score: int, b: Bounds) {
    (b.lo.None? || b.lo.value <= score) && (b.hi.None? || score < b.hi.value)
  }

  /**
    The range `count(priority)` asks for: `-inf` up to `(1000000000000000` for
    priority 0, `p000000000000000` up to `(p+1)000000000000000` for anything
    below 9 (negative numbers included), `9000000000000000` up to `+inf` for 9,
    and an error for anything above 9.
   */
  function CountRange(p: int): (r: Option<Bounds>)
    ensures r.None? <==> p > 9
    ensures r.Some? ==> (r.value.lo.None? <==> p == 0) && (r.value.hi.None? <==> p == 9)
  {
    if p == 0 then Some(Bounds(None, Some(SeqLimit)))
    else if p < 9 then Some(Bounds(Some(p * SeqLimit), Some((p + 1) * SeqLimit)))
    else if p == 9 then Some(Bounds(Some(9 * SeqLimit), None))
    else None
  }

  /** The members of one priority class. */
  function Class(q: Queue, p: int): (r: set<Member>) {
    set x | x in q.entries && q.entries[x].priority == p
  }

  /** `count(priority)`: the whole size without a priority, else a ZCOUNT over the priority's score range. */
  function Count(q: Queue, priority: Option<int>): (r: Result<nat>)
    ensures priority.None? ==> r == Ok(Size(q))
    ensures r.ValueError? <==> priority.Some? && priority.value > 9
  {
    if priority.None? then
      Ok(Size(q))
    else
      match CountRange(priority.value)
      case None => ValueError("TODO")
      case Some(b) => Ok(|set x | x in q.entries && InBounds(Score(q.entries[x]), b)|)
  }

  /** For a priority in 0..9 the range count is exactly the size of that priority class. */
  lemma CountIsClassSize(q: Queue, p: Priority)
    requires Valid(q)
    ensures Count(q, Some(p)) == Ok(|Class(q, p)|)
  {
    var b := CountRange(p).value;
    var inRange := set x | x in q.entries && InBounds(Score(q.entries[x]), b);
    forall x | x in q.entries
      ensures InBounds(Score(q.entries[x]), b) <==> q.entries[x].priority == p
    {
      RangeSelectsClass(p, q.entries[x]);
    }
    assert inRange == Class(q, p);
  }

  /** The score range `count(p)` scans for a priority 0..9 holds exactly the scores of that priority. */
  lemma RangeSelectsClass(p: Priority, e: Entry)
    requires e.seqNo < SeqLimit
    ensures InBounds(Score(e), CountRange(p).value) <==> e.priority == p
  {
    ScoreInClass(e.priority, e.seqNo);
    if e.priority < p {
      assert (e.priority + 1) * SeqLimit <= p * SeqLimit;
    } else if e.priority > p {
      assert (p + 1) * SeqLimit <= e.priority * SeqLimit;
    }
  }

  /** A negative priority selects a range below every score, so it counts nothing. */
  lemma CountNegative(q: Queue, p: int)
    requires p < 0
    ensures Count(q, Some(p)) == Ok(0)
  {
    var b := CountRange(p).value;
    var inRange := set x | x in q.entries && InBounds(Score(q.entries[x]), b);
    forall x | x in q.entries
      ensures !InBounds(Score(q.entries[x]), b)
    {
      assert (p + 1) * SeqLimit <= 0;
    }
    assert inRange == {};
  }

  /** The members whose priority is below `k`. */
  function ClassesBelow(q: Queue, k: int): (r: set<Member>) {
    set x | x in q.entries && q.entries[x].priority < k
  }

  /** Sum of the class sizes of priorities `0 .. k-1`. */
  function ClassTotal(q: Queue, k: nat): (r: nat) {
    if k == 0 then 0 else ClassTotal(q, k - 1) + |Class(q, k - 1)|
  }

  lemma {:induction false} ClassTotalCounts(q: Queue, k: nat)
    ensures ClassTotal(q, k) == |ClassesBelow(q, k)|
  {
    if k == 0 {
      assert ClassesBelow(q, 0) == {};
    } else {
      ClassTotalCounts(q, k - 1);
      assert ClassesBelow(q, k) == ClassesBelow(q, k - 1) + Class(q, k - 1);
      assert ClassesBelow(q, k - 1) * Class(q, k - 1) == {};
    }
  }

  /** The ten priority classes partition the queue: their counts add up to `count()`. */
  lemma CountsAddUp(q: Queue)
    requires Valid(q)
    ensures Count(q, Some(0)).value + Count(q, Some(1)).value + Count(q, Some(2)).value
          + Count(q, Some(3)).value + Count(q, Some(4)).value + Count(q, Some(5)).value
          + Count(q, Some(6)).value + Count(q, Some(7)).value + Count(q, Some(8)).value
          + Count(q, Some(9)).value
         == Count(q, None).value
  {
    CountIsClassSize(q, 0); CountIsClassSize(q, 1); CountIsClassSize(q, 2);
    CountIsClassSize(q, 3); CountIsClassSize(q, 4); CountIsClassSize(q, 5);
    CountIsClassSize(q, 6); CountIsClassSize(q, 7); CountIsClassSize(q, 8);
    CountIsClassSize(q, 9);
    ClassesAddUp(q);
  }

  /** Every member has a priority 0..9, so the ten class sizes add up to the size. */
  lemma ClassesAddUp(q: Queue)
    ensures |Class(q, 0)| + |Class(q, 1)| + |Class(q, 2)| + |Class(q, 3)| + |Class(q, 4)|
          + |Class(q, 5)| + |Class(q, 6)| + |Class(q, 7)| + |Class(q, 8)| + |Class(q, 9)|
         == Size(q)
  {
    assert ClassTotal(q, 0) == 0;
    assert ClassTotal(q, 1) == ClassTotal(q, 0) + |Class(q, 0)|;
    assert ClassTotal(q, 2) == ClassTotal(q, 1) + |Class(q, 1)|;
    assert ClassTotal(q, 3) == ClassTotal(q, 2) + |Class(q, 2)|;
    assert ClassTotal(q, 4) == ClassTotal(q, 3) + |Class(q, 3)|;
    assert ClassTotal(q, 5) == ClassTotal(q, 4) + |Class(q, 4)|;
    assert ClassTotal(q, 6) == ClassTotal(q, 5) + |Class(q, 5)|;
    assert ClassTotal(q, 7) == ClassTotal(q, 6) + |Class(q, 6)|;
    assert ClassTotal(q, 8) == ClassTotal(q, 7) + |Class(q, 7)|;
    assert ClassTotal(q, 9) == ClassTotal(q, 8) + |Class(q, 8)|;
    assert ClassTotal(q, 10) == ClassTotal(q, 9) + |Class(q, 9)|;
    ClassTotalCounts(q, 10);
    assert ClassesBelow(q, 10) == q.entries.Keys;
  }
}
