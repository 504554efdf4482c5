/**
  `pop(count)`: in one MULTI transaction, ZRANGE 0..count-1 reads the
  lowest-scored members and ZREMRANGEBYRANK 0..count-1 removes the same rank
  range. The model selects the lowest score repeatedly, as the sorted set's
  rank order does, and states the result in terms of retrieval order.
 */
module Extraction {
  import opened ScoreCodec
  import opened UpfQueue

  /** The bound `pop` asserts on its count. */
  const MaxPop: nat := 25000

  /** The members of a sequence, as a set. */
  function Elems(xs: seq<Member>): (r: set<Member>) {
    set x | x in xs
  }

  /**
    `popped` is the first `n` members of `entries` in retrieval order: as many
    as `n` allows, ascending by priority then sequence number, and every one of
    them retrieved before every member left behind.
   */
  predicate SortedPrefix(entries: map<Member, Entry>, n: nat, popped: seq<Member>) {
    && |popped| == Min(n, |entries|)
    && (forall i :: 0 <= i < |popped| ==> popped[i] in entries)
    && (forall i, j :: 0 <= i < j < |popped| ==> Below(entries[popped[i]], entries[popped[j]]))
    && (forall i, x :: 0 <= i < |popped| && x in entries && x !in popped ==> Below(entries[popped[i]], entries[x]))
  }

  /** In a valid queue retrieval order is a strict total order on members. */
  lemma BelowTotal(q: Queue, x: Member, y: Member)
    requires Valid(q) && x in q.entries && y in q.entries && x != y
    ensures Below(q.entries[x], q.entries[y]) != Below(q.entries[y], q.entries[x])
  {
  }

  /** Comparing scores, as the sorted set does, is comparing in retrieval order. */
  lemma ScoreIsRetrievalOrder(q: Queue, x: Member, y: Member)
    requires Valid(q) && x in q.entries && y in q.entries
    ensures Score(q.entries[x]) < Score(q.entries[y]) <==> Below(q.entries[x], q.entries[y])
  {
    var a, b := q.entries[x], q.entries[y];
    ScoreOrder(a.priority, a.seqNo, b.priority, b.seqNo);
  }

  /** The member with the lowest score: rank 0 of the sorted set. */
  method LowestScored(entries: map<Member, Entry>) returns (m: Member)
    requires |entries| > 0
    ensures m in entries
    ensures forall x :: x in entries ==> Score(entries[m]) <= Score(entries[x])
  {
    var todo := entries.Keys;
    assert todo != {};
    m :| m in todo;
    todo := todo - {m};
    while todo != {}
      invariant todo <= entries.Keys
      invariant m in entries
      invariant forall x :: x in entries && x !in todo ==> Score(entries[m]) <= Score(entries[x])
      decreases todo
    {
      var x :| x in todo;
      if Score(entries[x]) < Score(entries[m]) {
        m := x;
      }
      todo := todo - {x};
    }
  }

  /** What holds after each selection step: `popped` in retrieval order, all before `rest`. */
  predicate Selected(q: Queue, popped: seq<Member>, rest: map<Member, Entry>) {
    && rest == q.entries - Elems(popped)
    && |rest| + |popped| == |q.entries|
    && (forall i :: 0 <= i < |popped| ==> popped[i] in q.entries)
    && (forall i, j :: 0 <= i < j < |popped| ==> Below(q.entries[popped[i]], q.entries[popped[j]]))
    && (forall i, x :: 0 <= i < |popped| && x in rest ==> Below(q.entries[popped[i]], q.entries[x]))
  }

  /** Among members of the queue, the lowest score belongs to the first in retrieval order. */
  lemma LowestIsFirst(q: Queue, rest: map<Member, Entry>, m: Member)
    requires Valid(q)
    requires forall x :: x in rest ==> x in q.entries && rest[x] == q.entries[x]
    requires m in rest && forall x :: x in rest ==> Score(rest[m]) <= Score(rest[x])
    ensures forall x :: x in rest && x != m ==> Below(q.entries[m], q.entries[x])
  {
    forall x | x in rest && x != m
      ensures Below(q.entries[m], q.entries[x])
    {
      BelowTotal(q, m, x);
      ScoreIsRetrievalOrder(q, m, x);
      ScoreIsRetrievalOrder(q, x, m);
    }
  }

  /** Moving the lowest-scored remaining member to the end of `popped` keeps `Selected`. */
  lemma SelectStep(q: Queue, popped: seq<Member>, rest: map<Member, Entry>, m: Member)
    requires Valid(q) && Selected(q, popped, rest)
    requires m in rest && forall x :: x in rest ==> Score(rest[m]) <= Score(rest[x])
    ensures Selected(q, popped + [m], rest - {m})
  {
    LowestIsFirst(q, rest, m);
    SelectStepSets(q, popped, rest, m);
    SelectStepOrder(q, popped, rest, m);
  }

  lemma SelectStepSets(q: Queue, popped: seq<Member>, rest: map<Member, Entry>, m: Member)
    requires rest == q.entries - Elems(popped) && |rest| + |popped| == |q.entries|
    requires m in rest
    ensures rest - {m} == q.entries - Elems(popped + [m])
    ensures |rest - {m}| + |popped + [m]| == |q.entries|
  {
    assert Elems(popped + [m]) == Elems(popped) + {m};
    MapRemoveTwice(q.entries, Elems(popped), m);
    assert (rest - {m}).Keys == rest.Keys - {m};
  }

  lemma SelectStepOrder(q: Queue, popped: seq<Member>, rest: map<Member, Entry>, m: Member)
    requires forall x :: x in rest ==> x in q.entries
    requires forall i :: 0 <= i < |popped| ==> popped[i] in q.entries
    requires forall i, j :: 0 <= i < j < |popped| ==> Below(q.entries[popped[i]], q.entries[popped[j]])
    requires forall i, x :: 0 <= i < |popped| && x in rest ==> Below(q.entries[popped[i]], q.entries[x])
    requires m in rest && forall x :: x in rest && x != m ==> Below(q.entries[m], q.entries[x])
    ensures var p', rest' := popped + [m], rest - {m};
            && (forall i :: 0 <= i < |p'| ==> p'[i] in q.entries)
            && (forall i, j :: 0 <= i < j < |p'| ==> Below(q.entries[p'[i]], q.entries[p'[j]]))
            && (forall i, x :: 0 <= i < |p'| && x in rest' ==> Below(q.entries[p'[i]], q.entries[x]))
  {
  }

  /**
    The selection loop: repeatedly move the lowest-scored remaining member to
    the end of `popped`, until `n` are taken or none remain.
   */
  method SelectLowest(q: Queue, n: nat) returns (popped: seq<Member>, rest: map<Member, Entry>)
    requires Valid(q)
    ensures Selected(q, popped, rest) && |popped| <= n
    ensures |popped| == n || |rest| == 0
  {
    rest := q.entries;
    popped := [];
    SelectedStart(q);
    while |popped| < n && |rest| > 0
      invariant |popped| <= n
      invariant Selected(q, popped, rest)
      decreases |rest|
    {
      popped, rest := TakeLowest(q, popped, rest);
    }
  }

  /** Before the first round nothing is selected. */
  lemma SelectedStart(q: Queue)
    ensures Selected(q, [], q.entries)
  {
    assert q.entries - Elems([]) == q.entries;
  }

  /** One round of the selection loop. */
  method TakeLowest(q: Queue, popped: seq<Member>, rest: map<Member, Entry>)
    returns (popped': seq<Member>, rest': map<Member, Entry>)
    requires Valid(q) && Selected(q, popped, rest) && |rest| > 0
    ensures Selected(q, popped', rest')
    ensures |popped'| == |popped| + 1 && |rest'| < |rest|
  {
    var m := LowestScored(rest);
    SelectStep(q, popped, rest, m);
    popped' := popped + [m];
    rest' := rest - {m};
  }

  /**
    `pop(count)`: the first `count` members in retrieval order (all of them if
    the queue is shorter), removed from the queue; nothing else changes.
   */
  method Pop(q: Queue, n: nat) returns (popped: seq<Member>, q': Queue)
    requires 0 < n <= MaxPop
    requires Valid(q)
    ensures SortedPrefix(q.entries, n, popped)
    ensures q'.entries == q.entries - Elems(popped)
    ensures q'.counter == q.counter
    ensures Size(q') == Size(q) - |popped|
  {
    var rest;
    popped, rest := SelectLowest(q, n);
    SelectionDone(q, n, popped, rest);
    q' := Queue(rest, q.counter);
  }

  /** When selection stops, `popped` is the sorted prefix the caller asked for. */
  lemma SelectionDone(q: Queue, n: nat, popped: seq<Member>, rest: map<Member, Entry>)
    requires Selected(q, popped, rest) && |popped| <= n
    requires |popped| == n || |rest| == 0
    ensures SortedPrefix(q.entries, n, popped)
  {
    forall i, x | 0 <= i < |popped| && x in q.entries && x !in popped
      ensures Below(q.entries[popped[i]], q.entries[x])
    {
      assert x !in Elems(popped);
    }
  }

  lemma MapRemoveTwice(m: map<Member, Entry>, s: set<Member>, x: Member)
    ensures (m - s) - {x} == m - (s + {x})
  {
  }

  /** Popping keeps the queue invariant. */
  lemma PopPreservesValid(q: Queue, popped: seq<Member>)
    requires Valid(q)
    ensures Valid(Queue(q.entries - Elems(popped), q.counter))
  {
  }

  /**
    The result of a pop is determined by the queue: two sequences that both
    are the first `n` members in retrieval order are the same sequence.
   */
  lemma {:induction false} SortedPrefixUnique(q: Queue, n: nat, a: seq<Member>, b: seq<Member>)
    requires Valid(q)
    requires SortedPrefix(q.entries, n, a) && SortedPrefix(q.entries, n, b)
    ensures a == b
  {
    AgreeUpTo(q, n, a, b, |a|);
  }

  lemma {:induction false} AgreeUpTo(q: Queue, n: nat, a: seq<Member>, b: seq<Member>, k: nat)
    requires Valid(q)
    requires SortedPrefix(q.entries, n, a) && SortedPrefix(q.entries, n, b)
    requires k <= |a|
    ensures a[..k] == b[..k]
  {
    if k > 0 {
      AgreeUpTo(q, n, a, b, k - 1);
      var i := k - 1;
      if a[i] != b[i] {
        NotInPrefix(q.entries, n, b, i);
        NotInPrefix(q.entries, n, a, i);
        FirstOfRest(q.entries, n, a, i, b[i]);
        FirstOfRest(q.entries, n, b, i, a[i]);
        assert false;
      }
      assert a[..k] == a[..i] + [a[i]] && b[..k] == b[..i] + [b[i]];
    }
  }

  /** A sorted prefix has no repeats: its `i`-th member is not among the ones before it. */
  lemma NotInPrefix(entries: map<Member, Entry>, n: nat, a: seq<Member>, i: nat)
    requires SortedPrefix(entries, n, a) && i < |a|
    ensures a[i] !in a[..i]
  {
    forall j | 0 <= j < i
      ensures a[..i][j] != a[i]
    {
      assert Below(entries[a[j]], entries[a[i]]);
    }
  }

  /**
    After its first `i` members, a sorted prefix continues with the first in
    retrieval order of everything not yet taken.
   */
  lemma FirstOfRest(entries: map<Member, Entry>, n: nat, a: seq<Member>, i: nat, x: Member)
    requires SortedPrefix(entries, n, a)
    requires i < |a| && x in entries && x !in a[..i]
    ensures x == a[i] || Below(entries[a[i]], entries[x])
  {
    forall j | 0 <= j < i
      ensures a[j] != x
    {
      assert a[j] == a[..i][j];
    }
    if x in a {
      var j :| 0 <= j < |a| && a[j] == x;
      assert i <= j;
    }
  }
}
