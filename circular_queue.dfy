/**
 * The fixed-capacity ring buffer of circular_queue.go.  A queue built for `size`
 * values owns `size + 1` slots; one slot always stays free, so that
 * `first == end` means empty and `first == (end + 1) % capacity` means full.
 */
module Queue {
  import opened ModArith

  /** `k` zero values. */
  function Zeros(k: nat): (z: seq<real>)
    ensures |z| == k
    ensures forall j :: 0 <= j < k ==> z[j] == 0.0
  {
    seq(k, _ => 0.0)
  }

  /** The `count` slots of `s` that follow `from` around the ring. */
  function Slots(s: seq<real>, from: nat, count: nat): (r: seq<real>)
    requires from < |s| && count <= |s|
    ensures |r| == count
  {
    seq(count, k requires 0 <= k < count => s[Wrap(from + k, |s|)])
  }

  /** Slot `k` of the result is the `k`-th slot after `from`, wrapping around. */
  lemma SlotsIndex(s: seq<real>, from: nat, count: nat)
    requires from < |s| && count <= |s|
    ensures forall k :: 0 <= k < count ==> Slots(s, from, count)[k] == s[Wrap(from + k, |s|)]
  {
  }

  class CircularQueue {
    const capacity: nat
    const elements: array<real>
    var first: nat
    var end: nat

    ghost predicate Valid()
      reads this
    {
      0 < capacity && elements.Length == capacity && first < capacity && end < capacity
    }

    /** The values held, oldest (front) first. */
    ghost function Contents(): (s: seq<real>)
      requires Valid()
      reads this, elements
      ensures |s| == Len()
    {
      Slots(elements[..], first, Len())
    }

    /** NewCircularQueue: an empty queue for `size` values, in `size + 1` zeroed slots. */
    constructor (size: nat)
      ensures Valid() && fresh(elements)
      ensures capacity == size + 1 && first == 0 && end == 0
      ensures elements[..] == seq(size + 1, _ => 0.0)
      ensures IsEmpty() && Len() == 0 && Contents() == []
    {
      capacity := size + 1;
      elements := new real[size + 1](_ => 0.0);
      first, end := 0, 0;
    }

    function IsEmpty(): (b: bool)
      requires Valid()
      reads this
      ensures b <==> Len() == 0
    {
      first == end
    }

    function Len(): (n: int)
      requires Valid()
      reads this
      ensures 0 <= n < capacity
      ensures n == Wrap(end + capacity - first, capacity)
    {
      ModIsWrap(end + capacity - first, capacity);
      (end + capacity - first) % capacity
    }

    function IsFull(): (b: bool)
      requires Valid()
      reads this
      ensures b <==> Len() == capacity - 1
    {
      ModIsWrap(end + 1, capacity);
      first == (end + 1) % capacity
    }

    /** Push: store `e` behind the last value.  The source panics on a full queue. */
    method Push(e: real)
      requires Valid() && !IsFull()
      modifies this, elements
      ensures Valid()
      ensures first == old(first) && end == (old(end) + 1) % capacity
      ensures elements[..] == old(elements[..])[old(end) := e]
      ensures Contents() == old(Contents()) + [e]
      ensures Len() == old(Len()) + 1 && Last() == e
    {
      ghost var before := Contents();
      ghost var n := Len();
      SlotsIndex(elements[..], first, n);
      elements[end] := e;
      ModIsWrap(end + 1, capacity);
      end := (end + 1) % capacity;
      assert Len() == n + 1;
      SlotsIndex(elements[..], first, n + 1);
      forall k | 0 <= k < n
        ensures Contents()[k] == before[k]
      {
        assert Wrap(first + k, capacity) != old(end);
      }
      assert Contents() == before + [e];
    }

    /**
     * PushEmpty as written: advance `end` by `i` slots without writing them.  The
     * skipped slots keep whatever value they last held, and those values become part
     * of the contents.  The source panics when the `i` slots do not fit.
     */
    method PushEmpty(i: nat)
      requires Valid() && Len() + i + 1 <= capacity
      modifies this
      ensures Valid()
      ensures first == old(first) && end == (old(end) + i) % capacity
      ensures Len() == old(Len()) + i
      ensures Contents() == old(Contents()) + Slots(elements[..], old(end), i)
    {
      ghost var before := Contents();
      ghost var n := Len();
      ghost var start := end;
      SlotsIndex(elements[..], first, n);
      SlotsIndex(elements[..], start, i);
      ModIsWrap(end + i, capacity);
      end := (end + i) % capacity;
      assert Len() == n + i;
      SlotsIndex(elements[..], first, n + i);
      forall k | 0 <= k < n + i
        ensures Contents()[k] == (before + Slots(elements[..], start, i))[k]
      {
        if k >= n {
          assert Wrap(first + k, capacity) == Wrap(start + (k - n), capacity);
        }
      }
    }

    /**
     * PushEmpty as the strategies need it: the `i` skipped buckets are implicit
     * zeros, so a zero is stored in each skipped slot.
     */
    method PushEmptyZeroed(i: nat)
      requires Valid() && Len() + i + 1 <= capacity
      modifies this, elements
      ensures Valid()
      ensures first == old(first) && end == (old(end) + i) % capacity
      ensures Len() == old(Len()) + i
      ensures Contents() == old(Contents()) + Zeros(i)
    {
      ghost var e0, n0, c0 := end, Len(), Contents();
      var k := 0;
      while k < i
        invariant 0 <= k <= i
        invariant Valid() && first == old(first)
        invariant end == Wrap(e0 + k, capacity)
        invariant Len() == n0 + k
        invariant Contents() == c0 + Zeros(k)
      {
        ghost var e := end;
        Push(0.0);
        ModIsWrap(e + 1, capacity);
        assert Zeros(k + 1) == Zeros(k) + [0.0];
        k := k + 1;
      }
      ModIsWrap(e0 + i, capacity);
    }

    /** Shift: remove and return the oldest value; 0 and no change on an empty queue. */
    method Shift() returns (e: real)
      requires Valid()
      modifies this
      ensures Valid() && end == old(end)
      ensures old(IsEmpty()) ==> e == 0.0 && first == old(first)
      ensures !old(IsEmpty()) ==> e == old(Contents())[0] && first == (old(first) + 1) % capacity
      ensures Contents() == if old(IsEmpty()) then old(Contents()) else old(Contents())[1..]
    {
      if IsEmpty() {
        return 0.0;
      }
      ghost var before := Contents();
      SlotsIndex(elements[..], first, |before|);
      e := elements[first];
      ModIsWrap(first + 1, capacity);
      first := (first + 1) % capacity;
      assert Len() == |before| - 1;
      SlotsIndex(elements[..], first, |before| - 1);
      forall k | 0 <= k < |before| - 1
        ensures Contents()[k] == before[k + 1]
      {
      }
    }

    /** Pop: remove and return the newest value; 0 and no change on an empty queue. */
    method Pop() returns (e: real)
      requires Valid()
      modifies this
      ensures Valid() && first == old(first)
      ensures old(IsEmpty()) ==> e == 0.0 && end == old(end)
      ensures !old(IsEmpty()) ==>
        e == old(Contents())[old(Len()) - 1] && end == (old(end) + capacity - 1) % capacity
      ensures Contents() == if old(IsEmpty()) then old(Contents()) else old(Contents())[..old(Len()) - 1]
    {
      if IsEmpty() {
        return 0.0;
      }
      ghost var before := Contents();
      SlotsIndex(elements[..], first, |before|);
      ModIsWrap(end + capacity - 1, capacity);
      e := elements[(end + capacity - 1) % capacity];
      end := (end + capacity - 1) % capacity;
      assert Len() == |before| - 1;
      SlotsIndex(elements[..], first, |before| - 1);
      assert Contents() == before[..|before| - 1];
    }

    /** First: the oldest value, without removing it; 0 on an empty queue. */
    function First(): (r: real)
      requires Valid()
      reads this, elements
      ensures IsEmpty() ==> r == 0.0
      ensures !IsEmpty() ==> r == Contents()[0]
    {
      if IsEmpty() then 0.0
      else
        SlotsIndex(elements[..], first, Len());
        elements[first]
    }

    /** Last: the newest value, without removing it; 0 on an empty queue. */
    function Last(): (r: real)
      requires Valid()
      reads this, elements
      ensures IsEmpty() ==> r == 0.0
      ensures !IsEmpty() ==> r == Contents()[Len() - 1]
    {
      if IsEmpty() then 0.0
      else
        ModIsWrap(end + capacity - 1, capacity);
        SlotsIndex(elements[..], first, Len());
        elements[(end + capacity - 1) % capacity]
    }
  }

  /** Pushes the values of `xs` in order (a run of Push calls, as the strategies make them). */
  method PushAll(q: CircularQueue, xs: seq<real>)
    requires q.Valid() && q.Len() + |xs| < q.capacity
    modifies q, q.elements
    ensures q.Valid() && q.Contents() == old(q.Contents()) + xs
  {
    ghost var c0 := q.Contents();
    for k := 0 to |xs|
      invariant q.Valid() && q.Contents() == c0 + xs[..k]
    {
      q.Push(xs[k]);
      assert xs[..k + 1] == xs[..k] + [xs[k]];
    }
    assert xs[..|xs|] == xs;
  }

  /**
   * First in, first out: values pushed onto any queue with room for them, and
   * then shifted until it is empty, come out after its earlier contents, in
   * the order they went in.
   */
  method FifoOrder(q: CircularQueue, xs: seq<real>) returns (out: seq<real>)
    requires q.Valid() && q.Len() + |xs| < q.capacity
    modifies q, q.elements
    ensures q.Valid() && q.IsEmpty()
    ensures out == old(q.Contents()) + xs
  {
    ghost var all := q.Contents() + xs;
    PushAll(q, xs);
    out := [];
    ghost var rest := all;
    while !q.IsEmpty()
      invariant q.Valid() && q.Contents() == rest && out + rest == all
      decreases |rest|
    {
      var e := q.Shift();
      assert e == rest[0] && q.Contents() == rest[1..];
      assert (out + [e]) + rest[1..] == out + rest;
      out, rest := out + [e], rest[1..];
    }
  }

  /**
   * Last in, first out: values pushed onto any queue with room for them, and
   * then popped as many times, come out in reverse order and leave the queue
   * as it was.
   */
  method LifoOrder(q: CircularQueue, xs: seq<real>) returns (out: seq<real>)
    requires q.Valid() && q.Len() + |xs| < q.capacity
    modifies q, q.elements
    ensures q.Valid() && q.Contents() == old(q.Contents())
    ensures |out| == |xs| && forall k :: 0 <= k < |xs| ==> out[k] == xs[|xs| - 1 - k]
  {
    ghost var c0 := q.Contents();
    PushAll(q, xs);
    out := [];
    for i := 0 to |xs|
      invariant q.Valid() && q.Contents() == c0 + xs[..|xs| - i]
      invariant |out| == i && forall k :: 0 <= k < i ==> out[k] == xs[|xs| - 1 - k]
    {
      ghost var c := c0 + xs[..|xs| - i];
      var e := q.Pop();
      assert e == xs[|xs| - 1 - i] && q.Contents() == c[..|c| - 1];
      assert c[..|c| - 1] == c0 + xs[..|xs| - i - 1];
      out := out + [e];
    }
    assert xs[..0] == [];
  }

  /** A queue built for `n` values accepts exactly `n` pushes before it reports full. */
  method AcceptsExactly(n: nat) returns (fullBefore: bool, fullAfter: bool, len: int)
    ensures fullBefore <==> n == 0
    ensures fullAfter && len == n
  {
    var q := new CircularQueue(n);
    fullBefore := q.IsFull();
    var k := 0;
    while k < n
      invariant 0 <= k <= n
      invariant q.Valid() && q.capacity == n + 1 && q.Len() == k
      invariant fresh(q) && fresh(q.elements)
    {
      q.Push(k as real);
      k := k + 1;
    }
    fullAfter := q.IsFull();
    len := q.Len();
  }

  /**
   * PushEmpty as written exposes a stale value: a value pushed and then popped
   * reappears as the front of the queue after one empty slot is pushed.
   */
  method StaleSlotWitness() returns (front: real)
    ensures front == 2.0
  {
    var q := new CircularQueue(2);
    q.Push(2.0);
    var popped := q.Pop();
    q.PushEmpty(1);
    front := q.First();
  }

  /** With the skipped slots zeroed, the same sequence shows an empty bucket in front. */
  method ZeroedSlotWitness() returns (front: real)
    ensures front == 0.0
  {
    var q := new CircularQueue(2);
    q.Push(2.0);
    var popped := q.Pop();
    q.PushEmptyZeroed(1);
    front := q.First();
  }
  /**
   * The first two slots of the trace below: Reset of the empty slot 1 (the
   * evicted 0 equals First(), then 2 is finalized), Reset of slot 0 (the
   * evicted 2 equals First()), and Add(1) skipping one slot.
   */
  method StaleFirstSlots() returns (q: CircularQueue)
    ensures fresh(q) && fresh(q.elements) && q.Valid() && q.capacity == 3
    ensures q.first == 1 && q.end == 2 && q.elements[0] == 2.0 && q.elements[1] == 0.0
  {
    q := new CircularQueue(2);
    var e := q.Shift();
    q.Push(2.0);
    assert q.First() == 2.0;
    e := q.Shift();
    q.PushEmpty(1);
  }

  /**
   * The queue calls a Max strategy of size 2 makes, as written, for Add(2) at
   * slot 0, Add(1) two slots later, Add(-1) two slots after that, Add(-5) one
   * slot later, and any call one slot after that (statics.go:131-165). The
   * comments give the decision each call follows from. The stale 2 exposed by
   * the second PushEmpty is never evicted, so the final Reset's Push(-5)
   * finds the queue full, which panics (circular_queue.go:37-38).
   */
  method StalePanicWitness() returns (exposed: real, full: bool)
    ensures exposed == 2.0 && full
  {
    var q := StaleFirstSlots();
    // Two slots later: the same with 1 in place of 2.
    assert q.First() == 0.0;
    var e := q.Shift();
    q.Push(1.0);
    assert q.First() == 1.0;
    e := q.Shift();
    q.PushEmpty(1);
    exposed := q.First();
    // One slot later: the evicted 0 is not First() == 2, Last() == 2 does not
    // lose to -1, and -1 is finalized.
    assert q.Last() == 2.0;
    q.Push(-1.0);
    // One slot later: the evicted -1 is not First() == 2 and Last() == -1 does
    // not lose to -5, so Reset pushes -5 next.
    assert q.First() == 2.0 && q.Last() == -1.0;
    full := q.IsFull();
  }

  /**
   * The same calls with the skipped slot zeroed: the padded 0 is evicted with
   * its bucket and the finalized -1 with its own, so the last Push has room.
   */
  method ZeroedReplay() returns (exposed: real, full: bool)
    ensures exposed == 0.0 && !full
  {
    var q := new CircularQueue(2);
    var e := q.Shift();
    q.Push(2.0);
    e := q.Shift();
    q.PushEmptyZeroed(1);
    e := q.Shift();
    q.Push(1.0);
    e := q.Shift();
    q.PushEmptyZeroed(1);
    exposed := q.First();
    // One slot later: the evicted 0 is First(), so it is shifted out.
    assert q.First() == 0.0;
    e := q.Shift();
    q.Push(-1.0);
    // One slot later: the evicted -1 is First(), so it is shifted out.
    assert q.First() == -1.0;
    e := q.Shift();
    full := q.IsFull();
  }
}
