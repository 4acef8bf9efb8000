/**
 * The state of a statistic strategy (statics.go) as a value, and each of its
 * operations as a function on that value.  The `WindowStatic` class of the
 * Statics module keeps this state in fields and a ring buffer and is proved to
 * follow these functions step by step.
 *
 * One record serves every kind: Sum and Avg use `valSum`; Max and Min use
 * `curPos`, `curVal`, `cap` and the deque; all of them use `totalSum`.
 */
module StaticsSpec {
  import opened Buckets
  import opened Kinds
  import opened Queue
  import opened Folds

  datatype StaticState = StaticState(
    kind: StaticType,
    size: int,
    ignoreCurrent: bool,
    totalSum: int,
    valSum: real,
    curPos: int,
    curVal: real,
    cap: int,
    deque: seq<real>)

  /** The strategy NewStatic builds for a window of `size` buckets: every counter 0, the deque empty. */
  function Fresh(kind: StaticType, size: int, ignoreCurrent: bool): (s: StaticState)
    ensures s.kind == kind && s.size == size && s.ignoreCurrent == ignoreCurrent
    ensures s.totalSum == 0 && s.valSum == 0.0 && s.curPos == 0 && s.curVal == 0.0
    ensures s.cap == 0 && s.deque == []
  {
    StaticState(kind, size, ignoreCurrent, 0, 0.0, 0, 0.0, 0, [])
  }

  /** CircularQueue.First on the deque: its oldest value, 0 when empty. */
  function Front(d: seq<real>): (r: real)
    ensures |d| > 0 ==> r == d[0]
    ensures |d| == 0 ==> r == 0.0
  {
    if |d| == 0 then 0.0 else d[0]
  }

  /**
   * How many of the first `m` entries of `d` survive the `for ... Pop()` loop of
   * Max/Min Reset, which drops newest entries that `cv` strictly beats
   * (`Last() < curVal` for Max, `Last() > curVal` for Min).
   */
  function Kept(kind: StaticType, d: seq<real>, cv: real, m: int): (r: int)
    requires 0 <= m <= |d|
    ensures 0 <= r <= m
    ensures r > 0 ==> Key(kind, d[r - 1]) >= Key(kind, cv)
  {
    if m > 0 && Key(kind, d[m - 1]) < Key(kind, cv) then Kept(kind, d, cv, m - 1) else m
  }

  /** The deque after the pop loop. */
  function PopWhile(kind: StaticType, d: seq<real>, cv: real): (r: seq<real>)
    ensures |r| <= |d| && r == d[..|r|]
    ensures |r| > 0 ==> Key(kind, r[|r| - 1]) >= Key(kind, cv)
  {
    d[..Kept(kind, d, cv, |d|)]
  }

  /** Every entry the pop loop drops is one that `cv` beats. */
  lemma {:induction false} KeptBeaten(kind: StaticType, d: seq<real>, cv: real, m: int)
    requires 0 <= m <= |d|
    ensures forall j :: Kept(kind, d, cv, m) <= j < m ==> Key(kind, d[j]) < Key(kind, cv)
  {
    if m > 0 && Key(kind, d[m - 1]) < Key(kind, cv) {
      KeptBeaten(kind, d, cv, m - 1);
    }
  }

  lemma PopWhileBeaten(kind: StaticType, d: seq<real>, cv: real)
    ensures forall j :: |PopWhile(kind, d, cv)| <= j < |d| ==> Key(kind, d[j]) < Key(kind, cv)
  {
    KeptBeaten(kind, d, cv, |d|);
  }

  /** The index after `i` on a ring of `size` buckets (getIndex(curPos + 1)). */
  function Next(i: int, size: int): int
    requires size > 0
  {
    (i + 1) % size
  }

  /** Max/Min Reset finalizes the current bucket: it is the one before `index` and holds a value. */
  predicate Finalizes(s: StaticState, index: int)
    requires s.size > 0
  {
    index == Next(s.curPos, s.size) && s.curVal != 0.0
  }

  /** The deque after Reset's shift: drop the front when it equals the evicted bucket's value. */
  function ShiftedDeque(s: StaticState, it: Item): seq<real>
  {
    if |s.deque| > 0 && it.val == Front(s.deque) then s.deque[1..] else s.deque
  }

  /**
   * Reset would Push onto a full queue, which panics: the finalized value does not
   * fit behind what is left after popping.
   */
  predicate ResetOverflows(s: StaticState, it: Item, index: int)
    requires s.size > 0
  {
    IsExtreme(s.kind) && Finalizes(s, index)
    && |PopWhile(s.kind, ShiftedDeque(s, it), s.curVal)| >= s.size
  }

  /** Reset(i, index): the strategy's update as bucket `index`, holding `it`, is evicted. */
  function ResetSpec(s: StaticState, it: Item, index: int): (r: StaticState)
    requires s.size > 0
    ensures r.kind == s.kind && r.size == s.size && r.ignoreCurrent == s.ignoreCurrent
    ensures r.totalSum == s.totalSum - it.total
  {
    if !IsExtreme(s.kind) then
      s.(valSum := s.valSum - it.val, totalSum := s.totalSum - it.total)
    else
      var d1 := ShiftedDeque(s, it);
      var cap1 := if s.curVal != 0.0 then s.cap + 1 else s.cap;
      var fin := Finalizes(s, index);
      var d2 := if fin then PopWhile(s.kind, d1, s.curVal) + [s.curVal] else d1;
      s.(deque := d2,
         cap := if it.val != 0.0 && cap1 > 0 then cap1 - 1 else cap1,
         curVal := if fin then 0.0 else s.curVal,
         curPos := if fin then Next(s.curPos, s.size) else s.curPos,
         totalSum := s.totalSum - it.total)
  }

  // The Max/Min Reset in the order the source performs it, one step at a time.

  /** Drop the deque's front when it equals the evicted bucket's value. */
  function ShiftFront(s: StaticState, it: Item): StaticState
  {
    s.(deque := ShiftedDeque(s, it))
  }

  /** Count the current bucket as a nonzero one when it holds a value. */
  function CountCurrent(s: StaticState): StaticState
  {
    s.(cap := if s.curVal != 0.0 then s.cap + 1 else s.cap)
  }

  /** Pop what the current value beats, push it, and move to the next bucket. */
  function FinalizeCurrent(s: StaticState): StaticState
    requires s.size > 0
  {
    s.(deque := PopWhile(s.kind, s.deque, s.curVal) + [s.curVal],
       curVal := 0.0,
       curPos := Next(s.curPos, s.size))
  }

  /** Take the evicted bucket's count off, and its nonzero value off `cap`. */
  function Evict(s: StaticState, it: Item): StaticState
  {
    s.(totalSum := s.totalSum - it.total,
       cap := if it.val != 0.0 && s.cap > 0 then s.cap - 1 else s.cap)
  }

  /** Max/Min Reset is the composition of those steps. */
  lemma ResetSteps(s: StaticState, it: Item, index: int)
    requires IsExtreme(s.kind) && s.size > 0
    ensures var s2 := CountCurrent(ShiftFront(s, it));
            ResetSpec(s, it, index)
            == Evict(if Finalizes(s, index) then FinalizeCurrent(s2) else s2, it)
  {
  }

  /** How many empty buckets Max/Min Add pads the deque with before writing at `index`. */
  function Gap(s: StaticState, index: int): int
    requires s.size > 0
  {
    if index != s.curPos then (index + s.size - s.curPos) % s.size else 0
  }

  /** Add would PushEmpty more slots than the queue has free, which panics. */
  predicate AddOverflows(s: StaticState, index: int)
    requires s.size > 0
  {
    IsExtreme(s.kind) && |s.deque| + Gap(s, index) + 1 > s.size + 1
  }

  /**
   * Add(v, index): the strategy's update as `v` is added to bucket `index`.  Max/Min
   * pad the deque with one 0 for each bucket skipped since `curPos`.
   */
  function AddSpec(s: StaticState, v: real, index: int): (r: StaticState)
    requires s.size > 0
    ensures r.kind == s.kind && r.size == s.size && r.ignoreCurrent == s.ignoreCurrent
    ensures r.totalSum == s.totalSum + 1
    ensures IsExtreme(s.kind) ==> r.curPos == index && r.curVal == s.curVal + v && r.cap == s.cap
    ensures !IsExtreme(s.kind) ==> r.valSum == s.valSum + v
  {
    if !IsExtreme(s.kind) then
      s.(valSum := s.valSum + v, totalSum := s.totalSum + 1)
    else
      s.(deque := s.deque + Zeros(Gap(s, index)),
         curPos := index,
         curVal := s.curVal + v,
         totalSum := s.totalSum + 1)
  }

  /** Max/Min Value before the current bucket is folded in: the deque's front, clamped to 0. */
  function ClampedFront(s: StaticState): (m: real)
    requires IsExtreme(s.kind)
    ensures s.cap < s.size - 1 ==> Key(s.kind, m) >= 0.0
    ensures m == Front(s.deque) || m == 0.0
  {
    var m := Front(s.deque);
    if Key(s.kind, m) < 0.0 && s.cap < s.size - 1 then 0.0 else m
  }

  /** Value(i) for `i` the current bucket. */
  function ValueOf(s: StaticState, it: Item): (v: real)
    ensures IsExtreme(s.kind) && !s.ignoreCurrent ==> Key(s.kind, v) >= Key(s.kind, it.val)
    ensures IsExtreme(s.kind) && s.cap < s.size - 1 ==> Key(s.kind, v) >= 0.0
  {
    match s.kind
    case StaticAvg =>
      if s.ignoreCurrent then Quotient(s.valSum - it.val, s.size - 1)
      else Quotient(s.valSum, s.size)
    case StaticMax =>
      var m := ClampedFront(s);
      if s.ignoreCurrent then m else Pick(s.kind, m, it.val)
    case StaticMin =>
      var m := ClampedFront(s);
      if s.ignoreCurrent then m else Pick(s.kind, m, it.val)
    case _ =>
      if s.ignoreCurrent then s.valSum - it.val else s.valSum
  }

  /** BaseStatic.Total(i) for `i` the current bucket. */
  function TotalOf(s: StaticState, it: Item): (t: int)
    ensures s.ignoreCurrent ==> t == s.totalSum - it.total
    ensures !s.ignoreCurrent ==> t == s.totalSum
  {
    if s.ignoreCurrent then s.totalSum - it.total else s.totalSum
  }
}
