/**
 * The fold functions of calculates.go.  Each one lets Cal visit the buckets of
 * the window that are still inside it, oldest first, and accumulates an
 * aggregate step by step; here the visitor's body runs over the sequence Cal
 * returns, and each loop is proved to compute the recursive fold of Folds over
 * that sequence.  None of them changes the window.
 */
module Calculates {
  import opened Buckets
  import opened Kinds
  import opened Folds
  import opened Window

  /** The buckets Cal visits at time `now`. */
  ghost function Seen(rw: RollingWindow, now: int): seq<Item>
    requires rw.Valid()
    reads rw`pos, rw`lastTime, rw`ignoreCurrent, rw`buckets, rw`model, rw`tags, rw`cur, rw.Repr - {rw}
  {
    CalView(rw.buckets, rw.Offset(now), rw.ignoreCurrent)
  }

  /** The visitor `valSum += b.Val; total += b.Total` over the visited buckets. */
  method SumUp(visited: seq<Item>) returns (valSum: real, total: int)
    ensures valSum == SumVals(visited) && total == SumTotals(visited)
  {
    valSum, total := 0.0, 0;
    for i := 0 to |visited|
      invariant valSum == SumVals(visited[..i]) && total == SumTotals(visited[..i])
    {
      assert visited[..i + 1][..i] == visited[..i];
      valSum := valSum + visited[i].val;
      total := total + visited[i].total;
    }
    assert visited[..|visited|] == visited;
  }

  /** GetRollingWindowSum at time `now`: both sums over the visited buckets. */
  method GetRollingWindowSum(rw: RollingWindow, now: int) returns (valSum: real, total: int)
    requires rw.Valid()
    ensures valSum == SumVals(Seen(rw, now)) && total == SumTotals(Seen(rw, now))
  {
    var visited := rw.Cal(now);
    valSum, total := SumUp(visited);
  }

  /**
   * GetRollingWindowAvg at time `now`: the value sum divided by the number of
   * buckets a full window covers, however many were visited.
   */
  method GetRollingWindowAvg(rw: RollingWindow, now: int) returns (valSum: real, total: int)
    requires rw.Valid()
    ensures valSum == Quotient(SumVals(Seen(rw, now)), rw.GetStaticItemNum())
    ensures total == SumTotals(Seen(rw, now))
  {
    var visited := rw.Cal(now);
    valSum, total := SumUp(visited);
    valSum := Quotient(valSum, rw.GetStaticItemNum());
  }

  /**
   * The visitor of GetRollingWindowMax (`kind` StaticMax) and GetRollingWindowMin
   * (StaticMin): the running extreme, the count and the total; then 0 when nothing
   * was visited, and the extreme clamped toward 0 when fewer buckets than
   * `itemNum` were visited.
   */
  method ExtremeUp(kind: StaticType, visited: seq<Item>, itemNum: int) returns (m: real, total: int)
    requires IsExtreme(kind)
    ensures m == ExtremeResult(kind, visited, itemNum) && total == SumTotals(visited)
  {
    var has := false;
    var cnt := 0;
    m, total := 0.0, 0;
    for i := 0 to |visited|
      invariant has <==> i > 0
      invariant has ==> m == Extreme(kind, visited[..i])
      invariant cnt == i && total == SumTotals(visited[..i])
    {
      assert visited[..i + 1][..i] == visited[..i];
      if !has {
        m := visited[i].val;
        has := true;
      } else {
        m := Pick(kind, m, visited[i].val);
      }
      total := total + visited[i].total;
      cnt := cnt + 1;
    }
    assert visited[..|visited|] == visited;
    if !has {
      return 0.0, total;
    }
    if cnt < itemNum {
      m := Pick(kind, m, 0.0);
    }
  }

  /** GetRollingWindowMax at time `now`. */
  method GetRollingWindowMax(rw: RollingWindow, now: int) returns (m: real, total: int)
    requires rw.Valid()
    ensures m == ExtremeResult(StaticMax, Seen(rw, now), rw.GetStaticItemNum())
    ensures total == SumTotals(Seen(rw, now))
  {
    var visited := rw.Cal(now);
    m, total := ExtremeUp(StaticMax, visited, rw.GetStaticItemNum());
  }

  /** GetRollingWindowMin at time `now`. */
  method GetRollingWindowMin(rw: RollingWindow, now: int) returns (m: real, total: int)
    requires rw.Valid()
    ensures m == ExtremeResult(StaticMin, Seen(rw, now), rw.GetStaticItemNum())
    ensures total == SumTotals(Seen(rw, now))
  {
    var visited := rw.Cal(now);
    m, total := ExtremeUp(StaticMin, visited, rw.GetStaticItemNum());
  }

  /** The fold calculates.go offers for each kind of statistic (there is none for StaticBase). */
  method Calculate(kind: StaticType, rw: RollingWindow, now: int) returns (v: real, total: int)
    requires rw.Valid() && kind != StaticBase
    ensures v == FoldValue(kind, Seen(rw, now), rw.GetStaticItemNum())
    ensures total == SumTotals(Seen(rw, now))
  {
    ghost var seen, num := Seen(rw, now), rw.GetStaticItemNum();
    ghost var folded := FoldValue(kind, seen, num);
    if kind == StaticAvg {
      assert folded == Quotient(SumVals(seen), num);
      v, total := GetRollingWindowAvg(rw, now);
      assert v == folded;
    } else if kind == StaticMax {
      assert folded == ExtremeResult(StaticMax, seen, num);
      v, total := GetRollingWindowMax(rw, now);
      assert v == folded;
    } else if kind == StaticMin {
      assert folded == ExtremeResult(StaticMin, seen, num);
      v, total := GetRollingWindowMin(rw, now);
      assert v == folded;
    } else {
      assert kind == StaticSum && folded == SumVals(seen);
      v, total := GetRollingWindowSum(rw, now);
      assert v == folded;
    }
  }

  /**
   * doValied's two calls: StaticValue, then StaticTotal, at the same `now`.
   * The second call finds nothing left to rotate, so both answers are the
   * fold over what Cal visited before the first.
   */
  method ValueThenTotal(rw: RollingWindow, now: int) returns (ov: real, ot: int)
    requires rw.Valid() && rw.statics != null
    modifies rw.Repr
    ensures rw.Valid()
    ensures var before := CalView(old(rw.buckets), old(rw.Offset(now)), old(rw.ignoreCurrent));
            ov == FoldValue(rw.statics.kind, before, old(rw.GetStaticItemNum()))
            && ot == SumTotals(before)
  {
    ghost var k := rw.Offset(now);
    ghost var w1 := rw.buckets[k..] + Blank(k);
    CalAnticipatesRotation(rw.statics.kind, rw.buckets, k, rw.ignoreCurrent);
    ov := rw.StaticValue(now);
    assert rw.buckets == w1 && rw.Offset(now) == 0;
    assert w1[0..] + Blank(0) == w1;
    ot := rw.StaticTotal(now);
    assert ot == SumTotals(Visible(w1, rw.ignoreCurrent));
  }

  /**
   * The online statistic agrees with the fold, as the randomised test checks it:
   * fold what Cal visits, then ask the window for StaticValue and then for
   * StaticTotal at the same `now`; both answers equal the fold taken first.
   */
  method StaticAgreesWithFold(rw: RollingWindow, now: int) returns (folded: (real, int), online: (real, int))
    requires rw.Valid() && rw.statics != null
    modifies rw.Repr
    ensures folded.0 == old(FoldValue(rw.statics.kind, Seen(rw, now), rw.GetStaticItemNum()))
    ensures folded.1 == old(SumTotals(Seen(rw, now)))
    ensures online == folded
  {
    var v, t := Calculate(rw.statics.kind, rw, now);
    folded := (v, t);
    var ov, ot := ValueThenTotal(rw, now);
    online := (ov, ot);
  }
}
