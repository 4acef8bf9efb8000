/**
 * The aggregates of calculates.go written as plain recursive folds over the
 * buckets a window visits, oldest first.  They specify the visitor loops of the
 * Calculates module and are what the online strategies are proved to agree with.
 */
module Folds {
  import opened Buckets
  import opened Kinds

  /** Go's float division `x / float64(d)`, with a zero divisor read as 0 (see README). */
  function Quotient(x: real, d: int): (q: real)
    ensures d != 0 ==> q * (d as real) == x
    ensures d == 0 ==> q == 0.0
  {
    if d == 0 then 0.0 else x / (d as real)
  }

  /**
   * The running extreme of the visitor loop: the first value, then math.Max (or
   * math.Min) with each further value.
   */
  function Extreme(kind: StaticType, w: seq<Item>): (r: real)
    requires |w| > 0
    ensures forall k :: 0 <= k < |w| ==> Key(kind, r) >= Key(kind, w[k].val)
    ensures exists k :: 0 <= k < |w| && r == w[k].val
  {
    if |w| == 1 then w[0].val
    else
      var r0 := Extreme(kind, w[..|w| - 1]);
      assert forall k :: 0 <= k < |w| - 1 ==> w[..|w| - 1][k] == w[k];
      Pick(kind, r0, w[|w| - 1].val)
  }

  /** A value of the run that beats or ties every value of it is the extreme. */
  lemma ExtremeUnique(kind: StaticType, w: seq<Item>, x: real, k0: int)
    requires 0 <= k0 < |w| && x == w[k0].val
    requires forall k :: 0 <= k < |w| ==> Key(kind, x) >= Key(kind, w[k].val)
    ensures Extreme(kind, w) == x
  {
    var r := Extreme(kind, w);
    var k1 :| 0 <= k1 < |w| && r == w[k1].val;
    assert Key(kind, x) >= Key(kind, r) && Key(kind, r) >= Key(kind, x);
    KeyInjective(kind, x, r);
  }

  /**
   * GetRollingWindowMax / GetRollingWindowMin's value: 0 over no bucket; the
   * extreme clamped toward 0 when fewer than `itemNum` buckets were visited.
   */
  function ExtremeResult(kind: StaticType, w: seq<Item>, itemNum: int): real
  {
    if |w| == 0 then 0.0
    else if |w| < itemNum then Pick(kind, Extreme(kind, w), 0.0)
    else Extreme(kind, w)
  }

  /** GetStaticItemNum: the number of buckets a full window contributes to a statistic. */
  function ItemNum(size: int, ignoreCurrent: bool): int
  {
    if ignoreCurrent then size - 1 else size
  }

  /** The buckets, oldest first, that a statistic covers: all of `w`, or all but the current one. */
  function Visible(w: seq<Item>, ignoreCurrent: bool): (r: seq<Item>)
    requires |w| > 0
    ensures |r| == ItemNum(|w|, ignoreCurrent) && r == w[..|r|]
  {
    if ignoreCurrent then w[..|w| - 1] else w
  }

  /**
   * The buckets Cal visits, oldest first, when `span` buckets have expired since
   * the last rotation: the `span` oldest are skipped, and when none has expired
   * and the current bucket is ignored, the current one is skipped instead.
   */
  function CalView(w: seq<Item>, span: int, ignoreCurrent: bool): (r: seq<Item>)
    requires 0 < |w| && 0 <= span <= |w|
    ensures span == 0 ==> r == Visible(w, ignoreCurrent)
    ensures span > 0 ==> |r| == |w| - span && forall k :: 0 <= k < |r| ==> r[k] == w[span + k]
  {
    if span == 0 && ignoreCurrent then w[..|w| - 1] else w[span..]
  }

  /** The value a fold of `kind` computes over the visited buckets `w`. */
  function FoldValue(kind: StaticType, w: seq<Item>, itemNum: int): real
  {
    match kind
    case StaticAvg => Quotient(SumVals(w), itemNum)
    case StaticMax => ExtremeResult(kind, w, itemNum)
    case StaticMin => ExtremeResult(kind, w, itemNum)
    case _ => SumVals(w)
  }

  /** What the Max fold promises: it bounds every visited value and is one of them or 0. */
  lemma ExtremeResultBounds(kind: StaticType, w: seq<Item>, itemNum: int)
    requires IsExtreme(kind)
    ensures forall k :: 0 <= k < |w| ==> Key(kind, ExtremeResult(kind, w, itemNum)) >= Key(kind, w[k].val)
    ensures ExtremeResult(kind, w, itemNum) == 0.0
         || exists k :: 0 <= k < |w| && ExtremeResult(kind, w, itemNum) == w[k].val
    ensures |w| < itemNum ==> Key(kind, ExtremeResult(kind, w, itemNum)) >= 0.0
  {
  }

  /**
   * Adding empty buckets to a run that is already short of `itemNum` does not
   * change an extreme fold: the clamp toward 0 already accounts for them.
   */
  lemma {:induction false} ExtremeResultPadded(kind: StaticType, w: seq<Item>, z: nat, itemNum: int)
    requires IsExtreme(kind) && |w| < itemNum && |w| + z <= itemNum
    ensures ExtremeResult(kind, w + Blank(z), itemNum) == ExtremeResult(kind, w, itemNum)
  {
    var u := w + Blank(z);
    if z == 0 {
      assert u == w;
    } else if |w| == 0 {
      assert Key(kind, u[0].val) == 0.0;
      ExtremeUnique(kind, u, 0.0, 0);
    } else {
      var e := Extreme(kind, w);
      var x := Pick(kind, e, 0.0);
      var k0 :| 0 <= k0 < |w| && e == w[k0].val;
      forall k | 0 <= k < |u|
        ensures Key(kind, x) >= Key(kind, u[k].val)
      {
        if k >= |w| {
          assert u[k] == Empty;
        }
      }
      if x == e {
        ExtremeUnique(kind, u, x, k0);
      } else {
        assert u[|w|] == Empty;
        ExtremeUnique(kind, u, x, |w|);
      }
      if |u| < itemNum {
        assert Key(kind, x) >= 0.0;
      }
    }
  }

  /**
   * Cal anticipates the rotation: folding what Cal visits before the expired
   * buckets are cleared gives what a fold over the statistic's buckets gives
   * after they are cleared, for every kind, value and total alike.
   */
  lemma CalAnticipatesRotation(kind: StaticType, w: seq<Item>, span: int, ignoreCurrent: bool)
    requires 0 < |w| && 0 <= span <= |w|
    ensures var after := Visible(w[span..] + Blank(span), ignoreCurrent);
            FoldValue(kind, CalView(w, span, ignoreCurrent), ItemNum(|w|, ignoreCurrent))
              == FoldValue(kind, after, ItemNum(|w|, ignoreCurrent))
            && SumTotals(CalView(w, span, ignoreCurrent)) == SumTotals(after)
  {
    var n := |w|;
    var c := CalView(w, span, ignoreCurrent);
    var after := Visible(w[span..] + Blank(span), ignoreCurrent);
    if span == 0 {
      assert w[span..] + Blank(span) == w;
    } else {
      var z := if ignoreCurrent then span - 1 else span;
      assert c == w[span..];
      assert after == c + Blank(z);
      SumsAppend(c, Blank(z));
      SumsBlank(z);
      if IsExtreme(kind) {
        if z == 0 {
          assert after == c;
        } else {
          ExtremeResultPadded(kind, c, z, ItemNum(n, ignoreCurrent));
        }
      }
    }
  }
}
