/**
 * The scenarios of rolling_window_test.go, replayed on the model with a slot of
 * 50 time units and the clock passed in: what Cal visits after each step, as
 * values, and the sum a visitor accumulates.
 */
module Scenarios {
  import opened Buckets
  import opened Kinds
  import opened Folds
  import opened StaticsInvariant
  import opened Window
  import opened Calculates
  import opened ModArith

  /**
   * A window of the tests' shape: `n` buckets, slots of 50, no strategy.  The
   * window's invariant is kept behind `Ready`, so that a scenario passes it from
   * step to step without unfolding it.
   */
  ghost predicate Plain(r: RollingWindow, n: int, ignore: bool)
    reads r`pos, r`ignoreCurrent, r`buckets, r`model, r`tags, r`cur, r.Repr - {r}
  {
    r.size == n && n >= 1 && |r.buckets| == n && r.interval == 50 && r.statics == null
    && r.ignoreCurrent == ignore && Ready(r)
  }

  ghost predicate Ready(r: RollingWindow)
    reads r`pos, r`ignoreCurrent, r`buckets, r`model, r`tags, r`cur, r.Repr - {r}
  {
    forall k :: Opened(k) ==> r.Valid()
  }

  lemma Unready(r: RollingWindow)
    ensures Ready(r) == r.Valid()
  {
    assert Opened(0);
  }

  /** The sum of a run of values, from the first. */
  function Total(vs: seq<real>): real
  {
    if |vs| == 0 then 0.0 else Total(vs[..|vs| - 1]) + vs[|vs| - 1]
  }

  lemma {:induction false} SumValsIsTotal(w: seq<Item>)
    ensures SumVals(w) == Total(Vals(w))
  {
    if |w| > 0 {
      assert Vals(w)[..|w| - 1] == Vals(w[..|w| - 1]);
      SumValsIsTotal(w[..|w| - 1]);
    }
  }

  /** Add `v` at `now`, `k` whole slots after the one that began at `lastTime`. */
  method AddAt(r: RollingWindow, v: real, now: int, ghost n: int, ghost ignore: bool, ghost k: int)
    requires Plain(r, n, ignore) && 0 <= k && r.lastTime + 50 * k <= now < r.lastTime + 50 * (k + 1)
    modifies r.Repr
    ensures Plain(r, n, ignore) && r.lastTime == (if k > 0 then now else old(r.lastTime))
    ensures var j := if k < n then k else n;
            var w := old(r.buckets)[j..] + Blank(j);
            r.buckets == w[n - 1 := w[n - 1].Add(v)]
  {
    Unready(r);
    DivUnique(now - r.lastTime, 50, k, now - r.lastTime - 50 * k);
    ghost var j := if k < n then k else n;
    ghost var w := r.buckets[j..] + Blank(j);
    assert r.Offset(now) == j;
    r.Add(v, now);
    assert r.buckets == w[n - 1 := w[n - 1].Add(v)];
    Unready(r);
  }

  /** What Cal visits at `now`, `k` whole slots after the one that began at `lastTime`. */
  method ListAt(r: RollingWindow, now: int, ghost n: int, ghost ignore: bool, ghost k: int) returns (listing: seq<real>)
    requires Plain(r, n, ignore) && 0 <= k && r.lastTime + 50 * k <= now < r.lastTime + 50 * (k + 1)
    ensures listing == Vals(CalView(r.buckets, if k < n then k else n, ignore))
  {
    Unready(r);
    DivUnique(now - r.lastTime, 50, k, now - r.lastTime - 50 * k);
    var seen := r.Cal(now);
    listing := Vals(seen);
  }

  /** Add `vs[from..]` in order, all within the slot that began at `lastTime`. */
  method AddRest(r: RollingWindow, vs: seq<real>, from: int, now: int, ghost n: int, ghost ignore: bool)
    requires Plain(r, n, ignore) && 0 <= from <= |vs| && r.lastTime <= now < r.lastTime + 50
    modifies r.Repr
    ensures Plain(r, n, ignore) && r.lastTime == old(r.lastTime)
    ensures var w := Vals(old(r.buckets));
            Vals(r.buckets) == w[n - 1 := w[n - 1] + (Total(vs) - Total(vs[..from]))]
  {
    ghost var w := Vals(r.buckets);
    var i := from;
    while i < |vs|
      invariant from <= i <= |vs| && Plain(r, n, ignore) && r.lastTime == old(r.lastTime)
      invariant Vals(r.buckets) == w[n - 1 := w[n - 1] + (Total(vs[..i]) - Total(vs[..from]))]
    {
      assert vs[..i + 1][..i] == vs[..i];
      AddAt(r, vs[i], now, n, ignore, 0);
      i := i + 1;
    }
    assert vs[..|vs|] == vs;
  }

  /**
   * One slot of a test: the values `vs` added at `now`, which is in the slot
   * after the last one when `next` holds and in the same slot otherwise; then
   * what Cal visits.
   */
  method Phase(r: RollingWindow, vs: seq<real>, now: int, next: bool, ghost n: int, ghost ignore: bool)
    returns (listing: seq<real>)
    requires Plain(r, n, ignore) && |vs| > 0 && n >= 2
    requires if next then r.lastTime + 50 <= now < r.lastTime + 100 else r.lastTime <= now < r.lastTime + 50
    modifies r.Repr
    ensures Plain(r, n, ignore) && r.lastTime == (if next then now else old(r.lastTime))
    ensures var w := Vals(old(r.buckets));
            Vals(r.buckets) == if next then w[1..] + [Total(vs)] else w[n - 1 := w[n - 1] + Total(vs)]
    ensures listing == Vals(Visible(r.buckets, ignore))
  {
    ghost var w := Vals(r.buckets);
    if next {
      AddAt(r, vs[0], now, n, ignore, 1);
      assert Vals(r.buckets) == w[1..] + [vs[0]];
      assert vs[..1][..0] == [];
      AddRest(r, vs, 1, now, n, ignore);
      assert Vals(r.buckets) == w[1..] + [Total(vs)];
    } else {
      assert vs[..0] == [];
      AddRest(r, vs, 0, now, n, ignore);
    }
    listing := ListAt(r, now, n, ignore, 0);
  }

  lemma AddTestTotals()
    ensures Total([1.0]) == 1.0 && Total([2.0, 3.0]) == 5.0
    ensures Total([4.0, 5.0, 6.0]) == 15.0 && Total([7.0]) == 7.0
  {
    assert [1.0][..0] == [] && [7.0][..0] == [];
    assert [2.0, 3.0][..1] == [2.0] && [2.0][..0] == [];
    assert [4.0, 5.0, 6.0][..2] == [4.0, 5.0] && [4.0, 5.0][..1] == [4.0] && [4.0][..0] == [];
  }

  /** TestRollingWindowAdd: three buckets, values added across four slots. */
  method AddScenario() returns (listings: seq<seq<real>>)
    ensures listings == [[0.0, 0.0, 0.0], [0.0, 0.0, 1.0], [0.0, 1.0, 5.0], [1.0, 5.0, 15.0], [5.0, 15.0, 7.0]]
  {
    var r := new RollingWindow(3, 50, 0, StaticBase, false);
    Unready(r);
    assert Vals(r.buckets) == [0.0, 0.0, 0.0];
    AddTestTotals();
    var l0 := ListAt(r, 0, 3, false, 0);
    assert l0 == [0.0, 0.0, 0.0];
    var l1 := Phase(r, [1.0], 0, false, 3, false);
    assert l1 == [0.0, 0.0, 1.0];
    var l2 := Phase(r, [2.0, 3.0], 50, true, 3, false);
    assert l2 == [0.0, 1.0, 5.0];
    var l3 := Phase(r, [4.0, 5.0, 6.0], 100, true, 3, false);
    assert l3 == [1.0, 5.0, 15.0];
    var l4 := Phase(r, [7.0], 150, true, 3, false);
    assert l4 == [5.0, 15.0, 7.0];
    listings := [l0, l1, l2, l3, l4];
  }

  /**
   * TestRollingWindowReset: three buckets, the current one ignored; one value,
   * then Cal as one, two and three slots elapse, then a value and more than a
   * whole window of slots.
   */
  method ResetScenario() returns (listings: seq<seq<real>>)
    ensures listings == [[0.0, 1.0], [1.0], [], []]
  {
    var r := new RollingWindow(3, 50, 0, StaticBase, true);
    Unready(r);
    AddAt(r, 1.0, 0, 3, true, 0);
    assert r.buckets == [Empty, Empty, Item(1.0, 1)];
    var a := ListAt(r, 50, 3, true, 1);
    var b := ListAt(r, 100, 3, true, 2);
    var c := ListAt(r, 150, 3, true, 3);
    assert a == [0.0, 1.0] && b == [1.0] && c == [];
    AddAt(r, 1.0, 150, 3, true, 3);
    assert r.buckets == [Empty, Empty, Item(1.0, 1)];
    var d := ListAt(r, 350, 3, true, 4);
    listings := [a, b, c, d];
  }

  lemma ReduceTestTotals()
    ensures Total([0.0]) == 0.0 && Total([0.0, 1.0]) == 1.0
    ensures Total([0.0, 1.0, 2.0]) == 3.0 && Total([0.0, 1.0, 2.0, 3.0]) == 6.0
    ensures Total([0.0, 1.0, 3.0, 6.0]) == 10.0 && Total([0.0, 1.0, 3.0]) == 4.0
  {
    assert [0.0][..0] == [];
    assert [0.0, 1.0][..1] == [0.0];
    assert [0.0, 1.0, 2.0][..2] == [0.0, 1.0];
    assert [0.0, 1.0, 2.0, 3.0][..3] == [0.0, 1.0, 2.0];
    assert [0.0, 1.0, 3.0, 6.0][..3] == [0.0, 1.0, 3.0];
    assert [0.0, 1.0, 3.0][..2] == [0.0, 1.0];
  }

  /** The first two slots of TestRollingWindowReduce: 0, then 0 and 1. */
  method ReduceFirst(r: RollingWindow, ghost ignore: bool)
    requires Plain(r, 4, ignore) && r.lastTime == 0 && Vals(r.buckets) == [0.0, 0.0, 0.0, 0.0]
    modifies r.Repr
    ensures Plain(r, 4, ignore) && r.lastTime == 50 && Vals(r.buckets) == [0.0, 0.0, 0.0, 1.0]
  {
    ReduceTestTotals();
    var l := Phase(r, [0.0], 0, false, 4, ignore);
    assert Vals(r.buckets) == [0.0, 0.0, 0.0, 0.0];
    l := Phase(r, [0.0, 1.0], 50, true, 4, ignore);
  }

  /** The last two slots of TestRollingWindowReduce: 0 to 2, then 0 to 3. */
  method ReduceLast(r: RollingWindow, ghost ignore: bool)
    requires Plain(r, 4, ignore) && r.lastTime == 50 && Vals(r.buckets) == [0.0, 0.0, 0.0, 1.0]
    modifies r.Repr
    ensures Plain(r, 4, ignore) && r.lastTime == 150 && Vals(r.buckets) == [0.0, 1.0, 3.0, 6.0]
  {
    ReduceTestTotals();
    var l := Phase(r, [0.0, 1.0, 2.0], 100, true, 4, ignore);
    assert Vals(r.buckets) == [0.0, 0.0, 1.0, 3.0];
    l := Phase(r, [0.0, 1.0, 2.0, 3.0], 150, true, 4, ignore);
  }

  /**
   * TestRollingWindowReduce: four buckets; in slot x the values 0..x are added;
   * the visitor's sum is 10, or 4 when the current bucket is ignored.
   */
  method ReduceScenario(ignore: bool) returns (result: real)
    ensures result == if ignore then 4.0 else 10.0
  {
    var r := new RollingWindow(4, 50, 0, StaticBase, ignore);
    Unready(r);
    assert Vals(r.buckets) == [0.0, 0.0, 0.0, 0.0];
    ReduceFirst(r, ignore);
    ReduceLast(r, ignore);
    Unready(r);
    var total;
    result, total := GetRollingWindowSum(r, 150);
    ReduceTestTotals();
    SumValsIsTotal(Seen(r, 150));
    assert Vals(Seen(r, 150)) == if ignore then [0.0, 1.0, 3.0] else [0.0, 1.0, 3.0, 6.0];
  }
}
