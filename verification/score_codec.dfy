/**
  The score codec of the insert script. A score is the priority digit followed
  by the member's sequence number zero-padded to fifteen digits, so that the
  number Redis reads from it orders members by priority first and by insertion
  order second.
 */
module ScoreCodec {
  import opened Decimal

  /** 0 is the highest priority, 9 the lowest. */
  type Priority = p: int | 0 <= p <= 9

  const HighestPriority: Priority := 0
  const LowestPriority: Priority := 9

  /** Width of the sequence part of a score (`%015d`). */
  const SeqWidth: nat := 15

  /** Sequence numbers must stay below this bound to fit in `SeqWidth` digits. */
  const SeqLimit: nat := 1_000_000_000_000_000

  lemma SeqLimitIsPow10()
    ensures Pow10(SeqWidth) == SeqLimit
    ensures Pow10(SeqWidth + 1) == 10 * SeqLimit
  {
    assert Pow10(5) == 100_000;
    assert Pow10(10) == 10_000_000_000;
    assert Pow10(15) == 1_000_000_000_000_000;
  }

  /** The numeric score of a (priority, sequence) pair, as the sorted set holds it. */
  function ScoreOf(p: Priority, seqNo: nat): (r: nat) {
    p * SeqLimit + seqNo
  }

  /** `priority..string.format('%015d', seqNo)` */
  function Encode(p: Priority, seqNo: nat): (s: string)
    requires seqNo < SeqLimit
    ensures |s| == SeqWidth + 1 && AllDigits(s)
  {
    SeqLimitIsPow10();
    [Digit(p)] + Pad(seqNo, SeqWidth)
  }

  /** `tonumber(string.sub(score, 1, 1))`: the leading digit of a score string. */
  function PriorityOf(score: string): (r: Priority)
    requires |score| >= 1 && IsDigit(score[0])
    ensures Digit(r) == score[0]
  {
    DigitValue(score[0])
  }

  /** The sequence number carried by a score string: everything after the first digit. */
  function SeqOf(score: string): (r: nat)
    requires |score| >= 1 && AllDigits(score)
  {
    Value(score[1..])
  }

  /** `p..string.sub(score, 2)`: replace the leading digit, keep the rest. */
  function Promote(score: string, p: Priority): (s: string)
    requires |score| >= 1
    ensures |s| == |score| && s[1..] == score[1..]
    ensures IsDigit(s[0]) && PriorityOf(s) == p
    ensures AllDigits(score) ==> AllDigits(s)
  {
    [Digit(p)] + score[1..]
  }

  /** Decoding an encoded score gives back both of its components. */
  lemma DecodeEncode(p: Priority, seqNo: nat)
    requires seqNo < SeqLimit
    ensures PriorityOf(Encode(p, seqNo)) == p
    ensures SeqOf(Encode(p, seqNo)) == seqNo
  {
    SeqLimitIsPow10();
    assert Encode(p, seqNo)[1..] == Pad(seqNo, SeqWidth);
    ValuePad(seqNo, SeqWidth);
  }

  /** The number Redis reads from an encoded score is the numeric score. */
  lemma EncodeValue(p: Priority, seqNo: nat)
    requires seqNo < SeqLimit
    ensures Value(Encode(p, seqNo)) == ScoreOf(p, seqNo)
  {
    SeqLimitIsPow10();
    ValueConcat([Digit(p)], Pad(seqNo, SeqWidth));
    ValuePad(seqNo, SeqWidth);
    assert [Digit(p)][..0] == [];
  }

  /** Promotion rewrites the priority and keeps the sequence number. */
  lemma PromoteEncode(p: Priority, seqNo: nat, q: Priority)
    requires seqNo < SeqLimit
    ensures Promote(Encode(p, seqNo), q) == Encode(q, seqNo)
  {
    SeqLimitIsPow10();
    assert Encode(p, seqNo)[1..] == Pad(seqNo, SeqWidth);
  }

  /**
    Rewriting the leading digit to a smaller one lowers the number the string
    denotes: a promotion never moves a member back in the sorted set.
   */
  lemma PromoteLowers(score: string, p: Priority)
    requires |score| >= 1 && AllDigits(score) && p < PriorityOf(score)
    ensures AllDigits(Promote(score, p))
    ensures Value(Promote(score, p)) < Value(score)
  {
    var rest, d, h := score[1..], [Digit(p)], [score[0]];
    assert Promote(score, p) == d + rest;
    assert score == h + rest;
    ValueConcat(d, rest);
    ValueConcat(h, rest);
    ValueOne(Digit(p));
    ValueOne(score[0]);
    LeadBelow(p, PriorityOf(score), Pow10(|rest|), Value(rest), Value(d + rest), Value(h + rest));
  }

  lemma ValueOne(c: char)
    requires IsDigit(c)
    ensures Value([c]) == DigitValue(c)
  {
    assert [c][..0] == [];
  }

  /** The arithmetic step of `PromoteLowers`: a smaller leading digit over the same tail. */
  lemma LeadBelow(a: nat, b: nat, w: nat, v: nat, x: nat, y: nat)
    requires a < b && 0 < w
    requires x == a * w + v && y == b * w + v
    ensures x < y
  {
    assert b * w == a * w + (b - a) * w;
  }

  /** Scores order pairs by priority first and by sequence number second. */
  lemma {:induction false} ScoreOrder(p1: Priority, s1: nat, p2: Priority, s2: nat)
    requires s1 < SeqLimit && s2 < SeqLimit
    ensures ScoreOf(p1, s1) < ScoreOf(p2, s2) <==> p1 < p2 || (p1 == p2 && s1 < s2)
    ensures ScoreOf(p1, s1) == ScoreOf(p2, s2) <==> p1 == p2 && s1 == s2
  {
    if p1 < p2 {
      assert p1 * SeqLimit + SeqLimit <= p2 * SeqLimit;
    } else if p2 < p1 {
      assert p2 * SeqLimit + SeqLimit <= p1 * SeqLimit;
    }
  }

  /** The encoding is injective and the numbers it denotes preserve the order of pairs. */
  lemma EncodeOrder(p1: Priority, s1: nat, p2: Priority, s2: nat)
    requires s1 < SeqLimit && s2 < SeqLimit
    ensures Value(Encode(p1, s1)) < Value(Encode(p2, s2)) <==> p1 < p2 || (p1 == p2 && s1 < s2)
    ensures Encode(p1, s1) == Encode(p2, s2) <==> p1 == p2 && s1 == s2
  {
    EncodeValue(p1, s1);
    EncodeValue(p2, s2);
    ScoreOrder(p1, s1, p2, s2);
  }

  /** Every score fits in sixteen digits. */
  lemma ScoreFits(p: Priority, seqNo: nat)
    requires seqNo < SeqLimit
    ensures ScoreOf(p, seqNo) < 10 * SeqLimit
  {
    assert p * SeqLimit <= 9 * SeqLimit;
  }

  /** A score lies in the range that the count query uses for its own priority. */
  lemma ScoreInClass(p: Priority, seqNo: nat)
    requires seqNo < SeqLimit
    ensures p * SeqLimit <= ScoreOf(p, seqNo) < (p + 1) * SeqLimit
  {
  }
}
