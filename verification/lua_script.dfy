/**
  The insert script as it runs inside Redis, one loop iteration at a time,
  over the store's own state: numeric scores per member and the counter
  `_name_seq`. ZADD parses the score string it is given; ZSCORE replies with
  the shortest decimal form of the stored score.

  `StepAsWritten` reads the current priority from that reply, as the script
  does. For a member of priority 0 the reply has lost its leading zero, so the
  first character is a digit of the sequence number instead. `Step` reads the
  score back at the sixteen-digit width the script wrote it with, and is shown
  to implement `UpfQueue.Upsert` exactly.
 */
module LuaInsertScript {
  import opened Decimal
  import opened ScoreCodec
  import opened UpfQueue

  /** The sorted set as scores, and the sequence counter. */
  datatype Store = Store(scores: map<Member, nat>, seqCounter: nat)

  /** The store contents that represent a queue. */
  function Abs(q: Queue): (r: Store) {
    Store(map x | x in q.entries :: Score(q.entries[x]), q.counter)
  }

  /** Every score has at most sixteen digits. */
  predicate Bounded(st: Store) {
    forall x :: x in st.scores ==> st.scores[x] < 10 * SeqLimit
  }

  /** The absent branch: INCR the counter, build the score string, ZADD it. */
  function AddNew(st: Store, p: Priority, m: Member): (r: Store)
    requires st.seqCounter + 1 < SeqLimit
    ensures r == Store(st.scores[m := ScoreOf(p, st.seqCounter + 1)], st.seqCounter + 1)
    ensures Bounded(st) ==> Bounded(r)
  {
    var seqNo := st.seqCounter + 1;
    ScoreFits(p, seqNo);
    EncodeValue(p, seqNo);
    Store(st.scores[m := Value(Encode(p, seqNo))], seqNo)
  }

  /**
    The present branch: promote by rewriting the leading digit of `current`,
    the score as read back, and ZADD the new score. Only `m` changes, and when
    `current` denotes `m`'s score it never goes up.
   */
  function Rescore(st: Store, p: Priority, m: Member, current: string): (r: Store)
    requires m in st.scores && |current| >= 1 && AllDigits(current)
    ensures r.scores.Keys == st.scores.Keys && r.seqCounter == st.seqCounter
    ensures forall x :: x in st.scores && x != m ==> r.scores[x] == st.scores[x]
    ensures r.scores[m] == st.scores[m] || r.scores[m] < Pow10(|current|)
    ensures Value(current) == st.scores[m] ==> r.scores[m] <= st.scores[m]
    ensures Bounded(st) && |current| == SeqWidth + 1 ==> Bounded(r)
  {
    SeqLimitIsPow10();
    if p < PriorityOf(current) then
      PromoteLowers(current, p);
      Store(st.scores[m := Value(Promote(current, p))], st.seqCounter)
    else
      st
  }

  /** A score read back at the sixteen-digit width it was written with. */
  function Padded(score: nat): (s: string)
    requires score < 10 * SeqLimit
    ensures |s| == SeqWidth + 1 && AllDigits(s) && Value(s) == score
  {
    SeqLimitIsPow10();
    ValuePad(score, SeqWidth + 1);
    Pad(score, SeqWidth + 1)
  }

  /** One iteration of the script loop, reading the current score at full width. */
  function Step(st: Store, p: Priority, m: Member): (r: Store)
    requires st.seqCounter + 1 < SeqLimit
    requires m in st.scores ==> st.scores[m] < 10 * SeqLimit
    ensures r.scores.Keys == st.scores.Keys + {m}
    ensures st.seqCounter <= r.seqCounter <= st.seqCounter + 1
    ensures Bounded(st) ==> Bounded(r)
  {
    SeqLimitIsPow10();
    if m !in st.scores then AddNew(st, p, m)
    else
      Rescore(st, p, m, Padded(st.scores[m]))
  }

  /**
    One iteration of the script loop as written: the current score is the
    ZSCORE reply. An absent member is added with the next counter value; a
    present one can only move to a lower score; nothing else changes.
   */
  function StepAsWritten(st: Store, p: Priority, m: Member): (r: Store)
    requires st.seqCounter + 1 < SeqLimit
    ensures r.scores.Keys == st.scores.Keys + {m}
    ensures forall x :: x in st.scores && x != m ==> r.scores[x] == st.scores[x]
    ensures m !in st.scores ==> r.scores[m] == ScoreOf(p, st.seqCounter + 1) && r.seqCounter == st.seqCounter + 1
    ensures m in st.scores ==> r.scores[m] <= st.scores[m] && r.seqCounter == st.seqCounter
  {
    if m !in st.scores then AddNew(st, p, m)
    else Rescore(st, p, m, Render(st.scores[m]))
  }

  /** The whole script over its argument list. */
  function RunStore(st: Store, reqs: seq<Request>): (r: Store)
    requires st.seqCounter + |reqs| < SeqLimit
    requires Bounded(st)
    ensures Bounded(r)
    ensures r.scores.Keys == st.scores.Keys + Members(reqs)
    ensures st.seqCounter <= r.seqCounter <= st.seqCounter + |reqs|
    decreases |reqs|
  {
    if |reqs| == 0 then st
    else
      MembersCons(reqs);
      RunStore(Step(st, reqs[0].priority, reqs[0].member), reqs[1..])
  }

  lemma AbsBounded(q: Queue)
    requires Valid(q)
    ensures Bounded(Abs(q))
  {
  }

  /** A queue's stored score, read back at full width, is its encoded score string. */
  lemma PaddedScore(e: Entry)
    requires e.seqNo < SeqLimit
    ensures Padded(Score(e)) == Encode(e.priority, e.seqNo)
  {
    EncodeValue(e.priority, e.seqNo);
    PadValue(Encode(e.priority, e.seqNo));
  }

  /**
    The script step on the stored form of a queue is the stored form of the
    queue's upsert: same scores for every member, same counter.
   */
  lemma StepRefinesUpsert(q: Queue, p: Priority, m: Member)
    requires Valid(q) && q.counter + 1 < SeqLimit
    ensures Step(Abs(q), p, m) == Abs(Upsert(q, p, m))
  {
    if m in q.entries {
      StepRefinesPresent(q, p, m);
    } else {
      StepRefinesAbsent(q, p, m);
    }
  }

  lemma StepOnAbsent(st: Store, p: Priority, m: Member)
    requires st.seqCounter + 1 < SeqLimit && m !in st.scores
    ensures Step(st, p, m) == Store(st.scores[m := ScoreOf(p, st.seqCounter + 1)], st.seqCounter + 1)
  {
  }

  lemma StepRefinesAbsent(q: Queue, p: Priority, m: Member)
    requires q.counter + 1 < SeqLimit && m !in q.entries
    ensures Step(Abs(q), p, m) == Abs(Upsert(q, p, m))
  {
    var e := Entry(p, q.counter + 1);
    assert m !in Abs(q).scores;
    StepOnAbsent(Abs(q), p, m);
    assert Upsert(q, p, m) == Queue(q.entries[m := e], q.counter + 1);
    AbsUpdate(q, m, e, q.counter + 1);
  }

  lemma StepRefinesPresent(q: Queue, p: Priority, m: Member)
    requires Valid(q) && q.counter + 1 < SeqLimit && m in q.entries
    ensures Step(Abs(q), p, m) == Abs(Upsert(q, p, m))
  {
    var st := Abs(q);
    var e := q.entries[m];
    var current := Padded(st.scores[m]);
    PaddedScore(e);
    DecodeEncode(e.priority, e.seqNo);
    assert Step(st, p, m) == Rescore(st, p, m, current);
    if p < e.priority {
      PromoteEncode(e.priority, e.seqNo, p);
      EncodeValue(p, e.seqNo);
      AbsUpdate(q, m, e.(priority := p), q.counter);
    }
  }

  /** Replacing one entry of a queue replaces that member's stored score. */
  lemma AbsUpdate(q: Queue, m: Member, e: Entry, c: nat)
    ensures Abs(Queue(q.entries[m := e], c)) == Store(Abs(q).scores[m := Score(e)], c)
  {
  }

  /** The whole script on the stored form of a queue is the stored form of `RunScript`. */
  lemma {:induction false} ScriptRefines(q: Queue, reqs: seq<Request>)
    requires Valid(q) && q.counter + |reqs| < SeqLimit
    ensures Bounded(Abs(q)) && RunStore(Abs(q), reqs) == Abs(RunScript(q, reqs))
    decreases |reqs|
  {
    AbsBounded(q);
    if |reqs| > 0 {
      var h := reqs[0];
      StepRefinesUpsert(q, h.priority, h.member);
      UpsertPreservesValid(q, h.priority, h.member);
      ScriptRefines(Upsert(q, h.priority, h.member), reqs[1..]);
    }
  }

  /**
    For a member whose score has sixteen significant digits (priority 1 to 9)
    the ZSCORE reply is the full-width string, so the script as written does
    what `Step` does.
   */
  lemma AsWrittenAgreesAboveZero(st: Store, p: Priority, m: Member)
    requires st.seqCounter + 1 < SeqLimit
    requires m in st.scores ==> SeqLimit <= st.scores[m] < 10 * SeqLimit
    ensures StepAsWritten(st, p, m) == Step(st, p, m)
  {
    if m in st.scores {
      SeqLimitIsPow10();
      RenderPad(st.scores[m], SeqWidth + 1);
    }
  }

  /**
    Two members queued at priority 0, A before B. Re-inserting B at priority 0
    should change nothing; the script as written reads B's score back as "2",
    takes 2 for its priority, "promotes" it to "0" and so moves B ahead of A.
   */
  lemma AsWrittenBreaksFifo()
    ensures var q := Queue(map["A" := Entry(0, 1), "B" := Entry(0, 2)], 2);
            var st := Abs(q);
            && st == Store(map["A" := 1, "B" := 2], 2)
            && Step(st, 0, "B") == st
            && StepAsWritten(st, 0, "B") == Store(map["A" := 1, "B" := 0], 2)
  {
    var q := Queue(map["A" := Entry(0, 1), "B" := Entry(0, 2)], 2);
    PairAtZeroStored(1, 2, 2);
    StepRefinesUpsert(q, 0, "B");
    UpsertNoDemotion(q, 0, "B");
    AsWrittenRereadsTwo();
  }

  /** At priority 0 the stored score is the sequence number itself. */
  lemma PairAtZeroStored(sa: nat, sb: nat, c: nat)
    ensures Abs(Queue(map["A" := Entry(0, sa), "B" := Entry(0, sb)], c)) == Store(map["A" := sa, "B" := sb], c)
  {
    var q := Queue(map["A" := Entry(0, sa), "B" := Entry(0, sb)], c);
    assert Abs(q).scores == map["A" := sa, "B" := sb];
  }

  /** ZSCORE replies "2" for B; its first character is taken for a priority of 2. */
  lemma AsWrittenRereadsTwo()
    ensures StepAsWritten(Store(map["A" := 1, "B" := 2], 2), 0, "B") == Store(map["A" := 1, "B" := 0], 2)
  {
    assert Render(2) == "2";
    assert Promote("2", 0) == "0";
    assert Value("0") == 0;
  }

  /**
    A at priority 0 with sequence number 2, B at priority 0 with sequence
    number 12. Re-inserting B at priority 0 should change nothing; the script
    as written reads the reply "12" as priority 1 and rewrites B to "02", the
    score 2 that A already holds. The two members tie, and Redis then orders
    them by member name instead of by insertion.
   */
  lemma AsWrittenCollides()
    ensures var q := Queue(map["A" := Entry(0, 2), "B" := Entry(0, 12)], 12);
            var st := Abs(q);
            && Valid(q)
            && st == Store(map["A" := 2, "B" := 12], 12)
            && Step(st, 0, "B") == st
            && StepAsWritten(st, 0, "B") == Store(map["A" := 2, "B" := 2], 12)
  {
    var q := Queue(map["A" := Entry(0, 2), "B" := Entry(0, 12)], 12);
    PairAtZeroStored(2, 12, 12);
    StepRefinesUpsert(q, 0, "B");
    UpsertNoDemotion(q, 0, "B");
    AsWrittenRereadsTwelve();
  }

  /** ZSCORE replies "12" for B; its first character is taken for a priority of 1. */
  lemma AsWrittenRereadsTwelve()
    ensures StepAsWritten(Store(map["A" := 2, "B" := 12], 12), 0, "B") == Store(map["A" := 2, "B" := 2], 12)
  {
    assert Render(12) == "12";
    assert Promote("12", 0) == "02";
    assert Value("02") == 2;
  }
}
