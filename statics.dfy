/**
 * The statistic strategies of statics.go as one class tagged by its kind.  Sum
 * and Avg keep a running value sum; Max and Min keep the finished buckets'
 * candidates in a ring buffer, with the current bucket's partial value, its
 * position and a count of nonzero finished buckets.  Every operation is proved
 * to follow the corresponding function on StaticState.
 */
module Statics {
  import opened Buckets
  import opened Kinds
  import opened Queue
  import opened Folds
  import opened StaticsSpec

  class WindowStatic {
    const kind: StaticType
    const size: int
    var ignoreCurrent: bool
    var totalSum: int
    var valSum: real
    var curPos: int
    var curVal: real
    var cap: int
    /** The deque of Max/Min; Sum and Avg have none. */
    const queue: CircularQueue?
    /** The values held by the queue, oldest first. */
    ghost var deque: seq<real>
    ghost const Repr: set<object>

    ghost predicate Valid()
      reads this, Repr
    {
      this in Repr && kind != StaticBase && size >= 1 && 0 <= curPos < size
      && (IsExtreme(kind) <==> queue != null)
      && (queue != null ==>
            queue in Repr && queue.elements in Repr && queue.Valid() && queue.capacity == size + 1
            && queue.Contents() == deque)
      && (queue == null ==> deque == [])
    }

    /** The strategy's state as a value. */
    ghost function Model(): StaticState
      requires Valid()
      reads this, Repr
    {
      StaticState(kind, size, ignoreCurrent, totalSum, valSum, curPos, curVal, cap, deque)
    }

    /** newSumStatic, newAgvStatic, newMaxStatic, newMinStatic: every counter 0, an empty deque. */
    constructor (kind: StaticType, size: int)
      requires kind != StaticBase && size >= 1
      ensures Valid() && fresh(Repr)
      ensures Model() == Fresh(kind, size, false)
    {
      this.kind := kind;
      this.size := size;
      ignoreCurrent := false;
      totalSum, valSum := 0, 0.0;
      curPos, curVal, cap := 0, 0.0, 0;
      deque := [];
      if IsExtreme(kind) {
        var q := new CircularQueue(size);
        queue := q;
        Repr := {this, q, q.elements};
      } else {
        queue := null;
        Repr := {this};
      }
    }

    /** BaseStatic.SetIgnoreCurrent. */
    method SetIgnoreCurrent(b: bool)
      requires Valid()
      modifies this
      ensures Valid() && Model() == old(Model()).(ignoreCurrent := b)
    {
      ignoreCurrent := b;
    }

    /**
     * Add(v, index): Sum/Avg add `v` to the running sum; Max/Min first pad the deque
     * with one empty bucket per bucket skipped since `curPos`, then accumulate `v`
     * into the current bucket's value.  The source panics when the padding does not
     * fit; a consistent strategy never gets there (StaticsInvariant.AddKeeps).
     */
    method Add(v: real, index: int)
      requires Valid() && 0 <= index < size && !AddOverflows(Model(), index)
      modifies Repr
      ensures Valid() && Model() == AddSpec(old(Model()), v, index)
    {
      if queue != null {
        if index != curPos {
          var d := (index + size - curPos) % size;
          queue.PushEmptyZeroed(d);
          deque := deque + Zeros(d);
          curPos := index;
        }
        curVal := curVal + v;
        totalSum := totalSum + 1;
      } else {
        valSum := valSum + v;
        totalSum := totalSum + 1;
      }
    }

    /**
     * Reset(it, index): bucket `index`, holding `it`, leaves the window.  Max/Min drop
     * the deque's front when it is that bucket's value, and when `index` follows the
     * current bucket, finalize it: pop the newer entries its value beats and push it.
     * The source panics on a push into a full queue; a consistent strategy never
     * gets there (StaticsInvariant.ResetKeeps).
     */
    method Reset(it: Item, index: int)
      requires Valid() && 0 <= index < size && !ResetOverflows(Model(), it, index)
      modifies Repr
      ensures Valid() && Model() == ResetSpec(old(Model()), it, index)
    {
      if queue != null {
        ResetExtreme(it, index);
      } else {
        valSum := valSum - it.val;
        totalSum := totalSum - it.total;
      }
    }

    /** Max/Min Reset. */
    method ResetExtreme(it: Item, index: int)
      requires Valid() && queue != null && 0 <= index < size && !ResetOverflows(Model(), it, index)
      modifies Repr
      ensures Valid() && Model() == ResetSpec(old(Model()), it, index)
    {
      ResetSteps(Model(), it, index);
      ShiftEvicted(it);
      CountCurrentBucket();
      if index == (curPos + 1) % size && curVal != 0.0 {
        Finalize();
      }
      EvictBucket(it);
    }

    /** Reset's `if curVal != 0 { cap++ }`. */
    method CountCurrentBucket()
      requires Valid()
      modifies this
      ensures Valid() && Model() == CountCurrent(old(Model()))
    {
      if curVal != 0.0 {
        cap := cap + 1;
      }
    }

    /** Reset's last lines: the evicted bucket's count leaves the total, its value leaves `cap`. */
    method EvictBucket(it: Item)
      requires Valid()
      modifies this
      ensures Valid() && Model() == Evict(old(Model()), it)
    {
      totalSum := totalSum - it.total;
      if it.val != 0.0 && cap > 0 {
        cap := cap - 1;
      }
    }

    /**
     * The finalizing part of Reset: the current bucket's value enters the deque
     * behind the entries it does not beat, and the next bucket becomes current.
     */
    method Finalize()
      requires Valid() && queue != null && |PopWhile(kind, deque, curVal)| < size
      modifies this, queue, queue.elements
      ensures Valid() && Model() == FinalizeCurrent(old(Model()))
    {
      ghost var s0 := Model();
      Enqueue(queue, kind, curVal);
      curVal := 0.0;
      curPos := (curPos + 1) % size;
      deque := queue.Contents();
      assert Model() == s0.(deque := deque, curVal := 0.0, curPos := Next(s0.curPos, size));
    }

    /** The shift of Reset: drop the front when it equals the evicted bucket's value. */
    method ShiftEvicted(it: Item)
      requires Valid() && queue != null
      modifies this, queue
      ensures Valid() && Model() == ShiftFront(old(Model()), it)
    {
      if it.val == queue.First() {
        var _ := queue.Shift();
        deque := queue.Contents();
      }
    }

    /** Value(it) for `it` the current bucket. */
    function Value(it: Item): (r: real)
      requires Valid()
      reads Repr
      ensures r == ValueOf(Model(), it)
    {
      if kind == StaticAvg then
        if ignoreCurrent then Quotient(valSum - it.val, size - 1) else Quotient(valSum, size)
      else if IsExtreme(kind) then
        var first := queue.First();
        var m := if Key(kind, first) < 0.0 && cap < size - 1 then 0.0 else first;
        if ignoreCurrent then m else Pick(kind, m, it.val)
      else
        if ignoreCurrent then valSum - it.val else valSum
    }

    /** BaseStatic.Total(it) for `it` the current bucket. */
    function Total(it: Item): (r: int)
      requires Valid()
      reads Repr
      ensures r == TotalOf(Model(), it)
    {
      if ignoreCurrent then totalSum - it.total else totalSum
    }

    /** Static(it): Value and Total together. */
    function Static(it: Item): (r: (real, int))
      requires Valid()
      reads Repr
      ensures r.0 == ValueOf(Model(), it) && r.1 == TotalOf(Model(), it)
    {
      (Value(it), Total(it))
    }
  }

  /** The pop loop of Max/Min Reset: drop the newest entries of `q` that `cv` beats. */
  method PopBeaten(q: CircularQueue, kind: StaticType, cv: real)
    requires q.Valid()
    modifies q
    ensures q.Valid() && q.Contents() == PopWhile(kind, old(q.Contents()), cv)
  {
    ghost var d0 := q.Contents();
    ghost var n := |d0|;
    while !q.IsEmpty() && Key(kind, q.Last()) < Key(kind, cv)
      invariant q.Valid() && n == q.Len() && n <= |d0| && q.Contents() == d0[..n]
      invariant Kept(kind, d0, cv, n) == Kept(kind, d0, cv, |d0|)
      decreases n
    {
      assert q.Last() == d0[n - 1];
      assert Kept(kind, d0, cv, n) == Kept(kind, d0, cv, n - 1);
      assert d0[..n][..n - 1] == d0[..n - 1];
      var _ := q.Pop();
      n := n - 1;
    }
    assert Kept(kind, d0, cv, n) == n;
  }

  /** The queue part of Max/Min finalizing: the pop loop, then the push of `cv`. */
  method Enqueue(q: CircularQueue, kind: StaticType, cv: real)
    requires q.Valid() && |PopWhile(kind, q.Contents(), cv)| < q.capacity - 1
    modifies q, q.elements
    ensures q.Valid() && q.Contents() == PopWhile(kind, old(q.Contents()), cv) + [cv]
  {
    PopBeaten(q, kind, cv);
    q.Push(cv);
  }

  /** NewStatic: no strategy for StaticBase, a fresh one of the requested kind otherwise. */
  method NewStatic(kind: StaticType, size: int) returns (s: WindowStatic?)
    requires size >= 1
    ensures s == null <==> kind == StaticBase
    ensures s != null ==> fresh(s.Repr) && s.Valid() && s.Model() == Fresh(kind, size, false)
  {
    if kind == StaticBase {
      return null;
    }
    s := new WindowStatic(kind, size);
  }
}
