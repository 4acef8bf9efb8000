/**
 * The rotation engine of rolling_window.go: `size` buckets in a ring, the
 * current one at `pos`, cleared lazily as time slots elapse.  Time is an
 * integer `now` passed to every operation that reads the clock.
 *
 * `Buckets()` is the ring seen oldest first, the current bucket last; the
 * strategy, when there is one, is kept consistent with it (StaticsInvariant).
 */
module Window {
  import opened ModArith
  import opened Buckets
  import opened Kinds
  import opened Folds
  import opened StaticsSpec
  import opened StaticsInvariant
  import opened Statics

  /** The ring `a` seen from the bucket after `p` around to `p` itself: oldest first. */
  function View(a: seq<Item>, p: int): (w: seq<Item>)
    requires 0 <= p < |a|
    ensures |w| == |a| && forall k :: 0 <= k < |a| ==> w[k] == a[Wrap(p + 1 + k, |a|)]
  {
    seq(|a|, k requires 0 <= k < |a| => a[Wrap(p + 1 + k, |a|)])
  }

  /** Clearing the oldest bucket and making it current rotates the view by one. */
  lemma ViewReset(a: seq<Item>, p: int)
    requires 0 <= p < |a|
    ensures var i := Wrap(p + 1, |a|);
            View(a[i := Empty], i) == View(a, p)[1..] + [Empty]
  {
    var i := Wrap(p + 1, |a|);
    var u, v := View(a[i := Empty], i), View(a, p)[1..] + [Empty];
    forall k | 0 <= k < |a|
      ensures u[k] == v[k]
    {
      if k < |a| - 1 {
        assert v[k] == a[Wrap(p + 2 + k, |a|)];
      }
    }
  }

  /** Adding into the bucket at `p` changes only the newest bucket of the view. */
  lemma ViewAdd(a: seq<Item>, p: int, it: Item)
    requires 0 <= p < |a|
    ensures View(a[p := it], p) == View(a, p)[|a| - 1 := it]
  {
    var u := View(a[p := it], p);
    var v := View(a, p)[|a| - 1 := it];
    assert forall k | 0 <= k < |a| :: u[k] == v[k];
  }

  /** One more cleared bucket: the next oldest leaves, one more empty one is newest. */
  lemma RotateStep(w: seq<Item>, k: int)
    requires 0 <= k < |w|
    ensures (w[k..] + Blank(k))[1..] + [Empty] == w[k + 1..] + Blank(k + 1)
  {
    assert Blank(k + 1) == Blank(k) + [Empty];
  }

  /**
   * The strategy after the `k` oldest buckets of `w` were evicted in turn, oldest
   * first, the window's current bucket having been at `p`.
   */
  ghost function ResetRun(s: StaticState, w: seq<Item>, p: int, k: int): (r: StaticState)
    requires s.size > 0 && 0 <= k <= |w|
    ensures r.kind == s.kind && r.size == s.size && r.ignoreCurrent == s.ignoreCurrent
    decreases k
  {
    if k == 0 then s else ResetSpec(ResetRun(s, w, p, k - 1), w[k - 1], (p + k) % s.size)
  }

  /** The next eviction of a run is the next oldest bucket, at the index after the last one. */
  lemma ResetRunNext(s: StaticState, w: seq<Item>, p: int, k: int, i: int)
    requires s.size > 0 && 0 <= k < |w| && i == (p + k + 1) % s.size
    ensures ResetRun(s, w, p, k + 1) == ResetSpec(ResetRun(s, w, p, k), w[k], i)
  {
  }

  /**
   * The strategy's invariant behind a key: the window's invariant holds
   * `Sealed(...)`, a quantifier the solver only instantiates at `Opened(0)`, so
   * proofs about the window carry it as one fact and open it only through the
   * lemmas below.
   */
  ghost predicate Sealed(s: StaticState, w: seq<Item>, p: int, t: seq<int>, cur: int)
  {
    forall k :: Opened(k) ==> Consistent(s, w, p, t, cur)
  }

  lemma Unseal(s: StaticState, w: seq<Item>, p: int, t: seq<int>, cur: int)
    ensures Sealed(s, w, p, t, cur) == Consistent(s, w, p, t, cur)
  {
    assert Opened(0);
  }

  lemma SealedFresh(kind: StaticType, n: int, ignoreCurrent: bool)
    requires kind != StaticBase && n >= 1 && (IsExtreme(kind) ==> n >= 2)
    ensures Sealed(Fresh(kind, n, ignoreCurrent), Blank(n), 0, [], n - 1)
  {
    FreshConsistent(kind, n, ignoreCurrent);
    Unseal(Fresh(kind, n, ignoreCurrent), Blank(n), 0, [], n - 1);
  }

  lemma SealedReset(s: StaticState, w: seq<Item>, p: int, t: seq<int>, cur: int, i: int)
    requires Sealed(s, w, p, t, cur) && 0 <= p < |w| == s.size && i == Wrap(p + 1, |w|)
    ensures 0 <= i < s.size && !ResetOverflows(s, w[0], i)
            && Sealed(ResetSpec(s, w[0], i), w[1..] + [Empty], i,
                      ResetTags(s, w[0], i, t), ResetCur(s, i, cur))
  {
    Unseal(s, w, p, t, cur);
    ModIsWrap(p + 1, s.size);
    ResetKeeps(s, w, p, t, cur);
    var s', w', t', c' := ResetSpec(s, w[0], i), w[1..] + [Empty], ResetTags(s, w[0], i, t), ResetCur(s, i, cur);
    Unseal(s', w', i, t', c');
  }

  /** The strategy's invariant does not involve whether the current bucket is ignored. */
  lemma SealedFlag(s: StaticState, w: seq<Item>, p: int, t: seq<int>, cur: int, b: bool)
    requires Sealed(s, w, p, t, cur)
    ensures Sealed(s.(ignoreCurrent := b), w, p, t, cur)
  {
    Unseal(s, w, p, t, cur);
    Unseal(s.(ignoreCurrent := b), w, p, t, cur);
  }

  lemma SealedAdd(s: StaticState, w: seq<Item>, p: int, t: seq<int>, cur: int, x: real)
    requires Sealed(s, w, p, t, cur)
    ensures |w| == s.size >= 1 && !AddOverflows(s, p)
    ensures Sealed(AddSpec(s, x, p), w[s.size - 1 := w[s.size - 1].Add(x)], p,
                   AddTags(s, p, t), if IsExtreme(s.kind) then s.size - 1 else cur)
  {
    Unseal(s, w, p, t, cur);
    AddKeeps(s, w, p, t, cur, x);
    Unseal(AddSpec(s, x, p), w[s.size - 1 := w[s.size - 1].Add(x)], p,
           AddTags(s, p, t), if IsExtreme(s.kind) then s.size - 1 else cur);
  }

  lemma SealedValue(s: StaticState, w: seq<Item>, p: int, t: seq<int>, cur: int)
    requires Sealed(s, w, p, t, cur)
    ensures |w| == s.size >= 1
    ensures ValueOf(s, w[s.size - 1])
         == FoldValue(s.kind, Visible(w, s.ignoreCurrent), ItemNum(s.size, s.ignoreCurrent))
    ensures TotalOf(s, w[s.size - 1]) == SumTotals(Visible(w, s.ignoreCurrent))
  {
    Unseal(s, w, p, t, cur);
    ValueAgrees(s, w, p, t, cur);
  }

  class RollingWindow {
    const size: int
    const interval: int
    var pos: int
    var lastTime: int
    var ignoreCurrent: bool
    const datas: array<Item>
    const statics: WindowStatic?
    /** The buckets oldest first, the current one last (as seen from the position the invariant is at). */
    ghost var buckets: seq<Item>
    /** The strategy's state, when there is a strategy. */
    ghost var model: StaticState
    /** Which bucket each deque entry of a Max/Min strategy came from, and the strategy's current bucket. */
    ghost var tags: seq<int>
    ghost var cur: int
    ghost const Repr: set<object>

    /** The invariant, with the current bucket at `p` (which `updatePos` keeps in a local). */
    ghost predicate ValidAt(p: int)
      reads this`ignoreCurrent, this`buckets, this`model, this`tags, this`cur, Repr - {this}
    {
      this in Repr && datas in Repr && size >= 1 && interval > 0
      && datas.Length == size && 0 <= p < size
      && |buckets| == size && View(datas[..], p) == buckets && model.size == size
      && (statics != null ==>
            statics in Repr && statics.Repr <= Repr && this !in statics.Repr && datas !in statics.Repr
            && statics.Valid() && statics.Model() == model
            && model.ignoreCurrent == ignoreCurrent
            && Sealed(model, buckets, p, tags, cur))
    }

    ghost predicate Valid()
      reads this`pos, this`ignoreCurrent, this`buckets, this`model, this`tags, this`cur, Repr - {this}
    {
      ValidAt(pos)
    }

    /**
     * NewRollingWindow(size, interval) at time `now`.  `kind` is the WithStatic
     * option (StaticBase for none) and `ignoreCurrent` the IgnoreCurrentBucket one.
     */
    constructor (size: int, interval: int, now: int, kind: StaticType, ignoreCurrent: bool)
      requires size >= 1 && interval > 0 && (IsExtreme(kind) ==> size >= 2)
      ensures Valid() && fresh(Repr)
      ensures this.size == size && this.interval == interval
      ensures buckets == Blank(size) && pos == 0 && lastTime == now
      ensures this.ignoreCurrent == ignoreCurrent
      ensures statics == null <==> kind == StaticBase
      ensures statics != null ==> model == Fresh(kind, size, ignoreCurrent)
    {
      this.size := size;
      this.interval := interval;
      pos := 0;
      lastTime := now;
      this.ignoreCurrent := ignoreCurrent;
      datas := new Item[size](_ => Empty);
      var s := NewStatic(kind, size);
      if s != null {
        s.SetIgnoreCurrent(ignoreCurrent);
        Repr := {this, datas} + s.Repr;
      } else {
        Repr := {this, datas};
      }
      statics := s;
      buckets := Blank(size);
      model := Fresh(kind, size, ignoreCurrent);
      tags := [];
      cur := size - 1;
      new;
      assert View(datas[..], 0) == Blank(size);
      if s != null {
        SealedFresh(kind, size, ignoreCurrent);
      }
    }

    /** GetStaticItemNum: how many buckets a statistic covers. */
    function GetStaticItemNum(): (r: int)
      requires Valid()
      reads this`pos, this`ignoreCurrent, this`buckets, this`model, this`tags, this`cur, Repr - {this}
      ensures r == |Visible(buckets, ignoreCurrent)|
    {
      if ignoreCurrent then size - 1 else size
    }

    /**
     * offset: how many time slots have elapsed since `lastTime`, in Go's truncating
     * division; anything outside `[0, size)` counts as the whole window.
     */
    function Offset(now: int): (r: int)
      requires interval > 0 && size >= 1
      reads this`lastTime
      ensures 0 <= r <= size
      ensures 0 <= TruncDiv(now - lastTime, interval) < size ==> r == TruncDiv(now - lastTime, interval)
      ensures r < size ==> r == TruncDiv(now - lastTime, interval)
    {
      var offset := TruncDiv(now - lastTime, interval);
      if 0 <= offset && offset < size then offset else size
    }

    /**
     * Cal: the buckets the visitor is called with, in order.  The window is not
     * rotated first; buckets whose slot has elapsed are skipped.
     */
    method Cal(now: int) returns (visited: seq<Item>)
      requires Valid()
      ensures visited == CalView(buckets, Offset(now), ignoreCurrent)
    {
      var count: int;
      var span := Offset(now);
      if span == 0 && ignoreCurrent {
        count := size - 1;
      } else {
        count := size - span;
      }
      visited := [];
      if count > 0 {
        var start := (pos + span + 1) % size;
        var i := 0;
        while i < count
          invariant 0 <= i <= count
          invariant visited == buckets[span..span + i]
        {
          ModAddLeft(pos + span + 1, i, size);
          ModIsWrap(pos + 1 + span + i, size);
          visited := visited + [datas[(start + i) % size]];
          i := i + 1;
        }
      }
    }

    /** resetData(i): bucket `i`, the one after `p`, leaves the strategy and is cleared. */
    method ResetData(i: int, ghost p: int)
      requires ValidAt(p) && i == (p + 1) % size
      modifies datas, this`buckets, this`model, this`tags, this`cur, if statics != null then statics.Repr else {}
      ensures ValidAt(i)
      ensures datas[..] == old(datas[..])[i := Empty]
      ensures buckets == old(buckets)[1..] + [Empty]
      ensures statics != null ==> model == ResetSpec(old(model), old(buckets)[0], i)
      ensures pos == old(pos) && lastTime == old(lastTime) && ignoreCurrent == old(ignoreCurrent)
    {
      ghost var a := datas[..];
      ModIsWrap(p + 1, size);
      ViewReset(a, p);
      ghost var s, w := model, buckets;
      if statics != null {
        ResetStatic(datas[i], i, p);
      }
      datas[i] := Empty;
      buckets := w[1..] + [Empty];
      assert datas[..] == a[i := Empty];
    }

    /** The strategy's part of resetData: `statics.Reset(datas[i], i)`, `datas[i]` being the oldest bucket. */
    method ResetStatic(it: Item, i: int, ghost p: int)
      requires statics != null && statics.Valid() && statics.Model() == model && this !in statics.Repr
      requires |buckets| == model.size && 0 <= p < model.size && i == Wrap(p + 1, model.size)
      requires it == buckets[0] && Sealed(model, buckets, p, tags, cur)
      modifies statics.Repr, this`model, this`tags, this`cur
      ensures statics.Valid() && statics.Model() == model && model == ResetSpec(old(model), it, i)
      ensures Sealed(model, buckets[1..] + [Empty], i, tags, cur)
    {
      ghost var s := model;
      SealedReset(s, buckets, p, tags, cur, i);
      tags, cur, model := ResetTags(s, it, i, tags), ResetCur(s, i, cur), ResetSpec(s, it, i);
      statics.Reset(it, i);
    }

    /**
     * updatePos at time `now`: the buckets whose slots have elapsed, oldest first,
     * are evicted from the strategy and cleared, in two passes either side of the
     * end of the array, and the last of them becomes current.
     */
    method UpdatePos(now: int)
      requires Valid()
      modifies Repr
      ensures Valid() && ignoreCurrent == old(ignoreCurrent)
      ensures var k := old(Offset(now));
              pos == (old(pos) + k) % size
              && buckets == old(buckets)[k..] + Blank(k)
              && lastTime == (if k > 0 then now else old(lastTime))
              && (statics != null ==> model == ResetRun(old(model), old(buckets), old(pos), k))
      ensures Offset(now) == 0
    {
      var offset := Offset(now);
      ghost var p0 := pos;
      if offset > 0 {
        var p, k := ResetExpired(offset);
        assert p == (p0 + offset) % size;
        MoveTo(p, now);
      } else {
        DivUnique(pos, size, 0, pos);
        assert buckets[0..] + Blank(0) == buckets;
      }
    }

    /** The two loops of updatePos: clear the `offset` buckets after `pos`, oldest first. */
    method ResetExpired(offset: int) returns (p: int, ghost k: int)
      requires Valid() && 0 < offset <= size
      modifies Repr
      ensures k == offset && Rotated(old(buckets), old(model), pos, k, p)
      ensures pos == old(pos) && lastTime == old(lastTime) && ignoreCurrent == old(ignoreCurrent)
    {
      ghost var w0, s0 := buckets, model;
      DivUnique(pos, size, 0, pos);
      assert w0[0..] + Blank(0) == w0;
      p := pos;
      var start := pos + 1;
      var steps := start + offset;
      var remainder := 0;
      if steps > size {
        remainder := steps - size;
        steps := size;
      }
      if start < size {
        DivUnique(pos + 1, size, 0, pos + 1);
      }
      p, k := ResetRange(start, steps, p, w0, s0, 0);
      if remainder > 0 {
        DivUnique(p + 1, size, 1, 0);
      }
      p, k := ResetRange(0, remainder, p, w0, s0, k);
    }

    /**
     * One loop of updatePos: clear buckets `lo` up to `hi` in turn, `lo` being the
     * one after `p`; the result is the last one cleared.
     */
    method ResetRange(lo: int, hi: int, p: int, ghost w0: seq<Item>, ghost s0: StaticState, ghost k0: int)
      returns (last: int, ghost k: int)
      requires Rotated(w0, s0, pos, k0, p) && 0 <= lo <= hi <= size && k0 + (hi - lo) <= size
      requires lo < hi ==> lo == (p + 1) % size
      modifies Repr
      ensures k == k0 + (hi - lo) && Rotated(w0, s0, pos, k, last) && last == (if lo < hi then hi - 1 else p)
      ensures pos == old(pos) && lastTime == old(lastTime) && ignoreCurrent == old(ignoreCurrent)
    {
      last, k := p, k0;
      var i := lo;
      while i < hi
        invariant lo <= i <= hi && last == (if i == lo then p else i - 1) && k == k0 + (i - lo)
        invariant Rotated(w0, s0, pos, k, last)
        invariant pos == old(pos) && lastTime == old(lastTime) && ignoreCurrent == old(ignoreCurrent)
      {
        if i > lo {
          DivUnique(i, size, 0, i);
        }
        ResetStep(i, last, w0, s0, k);
        last, k := i, k + 1;
        i := i + 1;
      }
    }

    /** The end of updatePos: the last cleared bucket becomes current at time `now`. */
    method MoveTo(p: int, now: int)
      requires ValidAt(p)
      modifies this`pos, this`lastTime
      ensures Valid() && pos == p && lastTime == now
      ensures Offset(now) == 0
    {
      pos := p;
      lastTime := now;
    }

    /**
     * Progress of updatePos from the current bucket `p0`, the buckets `w0` and the
     * strategy `s0`: `k` buckets cleared and evicted, the last of them at `p`.
     */
    ghost predicate Rotated(w0: seq<Item>, s0: StaticState, p0: int, k: int, p: int)
      reads this`ignoreCurrent, this`buckets, this`model, this`tags, this`cur, Repr - {this}
    {
      ValidAt(p) && |w0| == size && 0 <= k <= size && s0.size == size
      && p == (p0 + k) % size
      && buckets == w0[k..] + Blank(k)
      && (statics != null ==> model == ResetRun(s0, w0, p0, k))
    }

    /** One iteration of either loop of updatePos. */
    method ResetStep(i: int, ghost p: int, ghost w0: seq<Item>, ghost s0: StaticState, ghost k: int)
      requires Rotated(w0, s0, pos, k, p) && k < size && i == (p + 1) % size
      modifies Repr
      ensures Rotated(w0, s0, pos, k + 1, i)
      ensures pos == old(pos) && lastTime == old(lastTime) && ignoreCurrent == old(ignoreCurrent)
    {
      ModAddLeft(pos + k, 1, size);
      ResetRunNext(s0, w0, pos, k, i);
      assert (w0[k..] + Blank(k))[0] == w0[k];
      ResetData(i, p);
      RotateStep(w0, k);
    }

    /** add(v): the strategy's Add at `pos`, then Item.Add on the current bucket. */
    method AddCurrent(v: real)
      requires Valid()
      modifies Repr
      ensures Valid()
      ensures buckets == old(buckets)[size - 1 := old(buckets)[size - 1].Add(v)]
      ensures pos == old(pos) && lastTime == old(lastTime) && ignoreCurrent == old(ignoreCurrent)
      ensures statics != null ==> model == AddSpec(old(model), v, pos)
    {
      ghost var a := datas[..];
      ViewAdd(a, pos, a[pos].Add(v));
      ghost var w := buckets;
      if statics != null {
        AddStatic(v);
      }
      datas[pos] := datas[pos].Add(v);
      buckets := w[size - 1 := w[size - 1].Add(v)];
      assert datas[..] == a[pos := a[pos].Add(v)];
    }

    /** The strategy's part of add: `statics.Add(v, pos)`. */
    method AddStatic(v: real)
      requires statics != null && statics.Valid() && statics.Model() == model && this !in statics.Repr
      requires |buckets| == model.size && 0 <= pos < model.size && Sealed(model, buckets, pos, tags, cur)
      modifies statics.Repr, this`model, this`tags, this`cur
      ensures statics.Valid() && statics.Model() == model && model == AddSpec(old(model), v, pos)
      ensures Sealed(model, buckets[|buckets| - 1 := buckets[|buckets| - 1].Add(v)], pos, tags, cur)
    {
      ghost var s := model;
      SealedAdd(s, buckets, pos, tags, cur, v);
      statics.Add(v, pos);
      tags, cur, model := AddTags(s, pos, tags), (if IsExtreme(s.kind) then s.size - 1 else cur), AddSpec(s, v, pos);
    }

    /** Add(v) at time `now`: rotate, then add into the current bucket. */
    method Add(v: real, now: int)
      requires Valid()
      modifies Repr
      ensures Valid() && ignoreCurrent == old(ignoreCurrent)
      ensures var k := old(Offset(now));
              var w1 := old(buckets)[k..] + Blank(k);
              pos == (old(pos) + k) % size && buckets == w1[size - 1 := w1[size - 1].Add(v)]
              && lastTime == (if k > 0 then now else old(lastTime))
              && (statics != null ==> model == AddSpec(ResetRun(old(model), old(buckets), old(pos), k), v, pos))
      ensures Offset(now) == 0
    {
      UpdatePos(now);
      AddCurrent(v);
    }

    /**
     * What the strategy answers for the current bucket: the fold of the
     * statistic's kind over the buckets it covers, without visiting them.
     */
    function Answer(): (r: (real, int))
      requires Valid() && statics != null
      reads this`pos, this`ignoreCurrent, this`buckets, this`model, this`tags, this`cur, Repr - {this}
      ensures r.0 == FoldValue(statics.kind, Visible(buckets, ignoreCurrent), GetStaticItemNum())
      ensures r.1 == SumTotals(Visible(buckets, ignoreCurrent))
    {
      assert buckets[size - 1] == datas[pos];
      SealedValue(model, buckets, pos, tags, cur);
      statics.Static(datas[pos])
    }

    /**
     * Static at time `now`: with a strategy, rotate, then answer for the current
     * bucket; the answer is also the fold over what Cal visited before the
     * rotation.  Without a strategy, (0, 0) and nothing changes.
     */
    method Static(now: int) returns (v: real, t: int)
      requires Valid()
      modifies Repr
      ensures Valid() && ignoreCurrent == old(ignoreCurrent)
      ensures statics == null ==>
                v == 0.0 && t == 0 && pos == old(pos) && lastTime == old(lastTime) && buckets == old(buckets)
      ensures statics != null ==>
                var k := old(Offset(now));
                pos == (old(pos) + k) % size && buckets == old(buckets)[k..] + Blank(k)
                && lastTime == (if k > 0 then now else old(lastTime))
                && model == ResetRun(old(model), old(buckets), old(pos), k)
                && Offset(now) == 0
                && (v, t) == Answer()
      ensures statics != null ==>
                var before := CalView(old(buckets), old(Offset(now)), ignoreCurrent);
                v == FoldValue(statics.kind, before, GetStaticItemNum()) && t == SumTotals(before)
    {
      if statics != null {
        ghost var w0 := buckets;
        ghost var k := Offset(now);
        UpdatePos(now);
        CalAnticipatesRotation(statics.kind, w0, k, ignoreCurrent);
        v, t := Answer().0, Answer().1;
      } else {
        v, t := 0.0, 0;
      }
    }

    /** StaticValue at time `now`: Static's value alone. */
    method StaticValue(now: int) returns (v: real)
      requires Valid()
      modifies Repr
      ensures Valid() && ignoreCurrent == old(ignoreCurrent)
      ensures statics == null ==>
                v == 0.0 && pos == old(pos) && lastTime == old(lastTime) && buckets == old(buckets)
      ensures statics != null ==>
                var k := old(Offset(now));
                pos == (old(pos) + k) % size && buckets == old(buckets)[k..] + Blank(k)
                && lastTime == (if k > 0 then now else old(lastTime))
                && model == ResetRun(old(model), old(buckets), old(pos), k)
                && Offset(now) == 0
                && v == Answer().0
                && v == FoldValue(statics.kind, CalView(old(buckets), old(Offset(now)), ignoreCurrent),
                                  GetStaticItemNum())
    {
      var t;
      v, t := Static(now);
    }

    /** StaticTotal at time `now`: Static's total alone. */
    method StaticTotal(now: int) returns (t: int)
      requires Valid()
      modifies Repr
      ensures Valid() && ignoreCurrent == old(ignoreCurrent)
      ensures statics == null ==>
                t == 0 && pos == old(pos) && lastTime == old(lastTime) && buckets == old(buckets)
      ensures statics != null ==>
                var k := old(Offset(now));
                pos == (old(pos) + k) % size && buckets == old(buckets)[k..] + Blank(k)
                && lastTime == (if k > 0 then now else old(lastTime))
                && model == ResetRun(old(model), old(buckets), old(pos), k)
                && Offset(now) == 0
                && t == Answer().1
                && t == SumTotals(CalView(old(buckets), old(Offset(now)), ignoreCurrent))
    {
      var v;
      v, t := Static(now);
    }

    /** The IgnoreCurrentBucket option: the window and its strategy both ignore the current bucket. */
    method SetIgnoreCurrent(b: bool)
      requires Valid()
      modifies this, statics
      ensures Valid() && ignoreCurrent == b
      ensures pos == old(pos) && lastTime == old(lastTime) && buckets == old(buckets)
      ensures statics != null ==> model == old(model).(ignoreCurrent := b)
    {
      ignoreCurrent := b;
      if statics != null {
        SealedFlag(model, buckets, pos, tags, cur, b);
        statics.SetIgnoreCurrent(b);
        model := model.(ignoreCurrent := b);
      }
    }
  }
}
