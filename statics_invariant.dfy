/**
 * What a strategy's state says about the buckets of its window, and the proof
 * that Add and Reset keep it true.  The buckets are seen oldest first:
 * `w[k]` is the bucket at `(pos + 1 + k) % size`, so `w[size - 1]` is the current
 * one.
 *
 * For Max/Min the deque holds, oldest first, the values of some of the finished
 * buckets; `tags` (ghost) records which bucket each entry came from, relative to
 * `w`, and `cur` is the relative position of the strategy's `curPos`.  The deque
 * need not be monotone: PushEmpty appends zeros without popping, so a later entry
 * may beat an earlier one, but only when it is not above 0 and a 0 sits between
 * them.  A finished nonzero bucket that is not in the deque is beaten by the first
 * entry after it.  That is enough for the clamped front to be the extreme of the
 * finished buckets.
 */
module StaticsInvariant {
  import opened ModArith
  import opened Buckets
  import opened Kinds
  import opened Queue
  import opened Folds
  import opened StaticsSpec

  predicate Sorted(t: seq<int>)
  {
    forall i, j :: 0 <= i < j < |t| ==> t[i] < t[j]
  }

  /** Every later entry that beats an earlier one is at most 0 and has a 0 before it. */
  ghost predicate Shape(kind: StaticType, d: seq<real>)
  {
    forall i, j :: Rises(kind, d, i, j) ==> Key(kind, d[j]) <= 0.0 && ZeroBetween(d, i, j)
  }

  /** Entry `j` beats the earlier entry `i`. */
  ghost predicate Rises(kind: StaticType, d: seq<real>, i: int, j: int)
  {
    0 <= i < j < |d| && Key(kind, d[i]) < Key(kind, d[j])
  }

  /** Some entry after `i`, up to and including `j`, is 0. */
  ghost predicate ZeroBetween(d: seq<real>, i: int, j: int)
    requires 0 <= i < j < |d|
  {
    exists m :: i < m <= j && d[m] == 0.0
  }

  /** Entry `j` is the first entry after bucket `k`, is nonzero and beats `v[k]`. */
  ghost predicate Dominates(kind: StaticType, v: seq<real>, d: seq<real>, t: seq<int>, k: int, j: int)
    requires |t| == |d| && 0 <= k < |v|
  {
    0 <= j < |d| && (j > 0 ==> t[j - 1] < k) && k < t[j]
    && d[j] != 0.0 && Key(kind, d[j]) > Key(kind, v[k])
  }

  /**
   * The deque `d`, tagged by `t`, against bucket values `v`: tags are increasing,
   * in `[lo, cur)`, each entry is its bucket's value, the shape holds, and every
   * nonzero untagged bucket in `[lo, |v| - 1)` is dominated.
   */
  ghost predicate DequeOK(kind: StaticType, v: seq<real>, lo: int, d: seq<real>, t: seq<int>, cur: int)
  {
    |t| == |d| && (forall k :: Opened(k) ==> Tagged(v, lo, d, t, cur) && Shape(kind, d) && Covered(kind, v, lo, d, t))
  }

  /**
   * Holds of 0 only: the key that opens a sealed predicate.  Apart from the tags'
   * count, `DequeOK` is such a quantifier, so that proofs that only pass it on
   * never unfold it; the lemmas that work on its parts open it with `OpenDeque`.
   */
  ghost predicate Opened(k: int)
  {
    k == 0
  }

  lemma OpenDeque(kind: StaticType, v: seq<real>, lo: int, d: seq<real>, t: seq<int>, cur: int)
    ensures DequeOK(kind, v, lo, d, t, cur) == (Tagged(v, lo, d, t, cur) && Shape(kind, d) && Covered(kind, v, lo, d, t))
  {
    assert Opened(0);
  }

  /** Tags are increasing, in `[lo, cur)`, and each entry is its bucket's value. */
  ghost predicate Tagged(v: seq<real>, lo: int, d: seq<real>, t: seq<int>, cur: int)
  {
    0 <= lo && cur <= |v| && |t| == |d| && Sorted(t)
    && (forall j :: 0 <= j < |t| ==> lo <= t[j] < cur)
    && (forall j :: 0 <= j < |t| ==> d[j] == v[t[j]])
  }

  /** Every nonzero finished bucket from `lo` on that is not in the deque is dominated. */
  ghost predicate Covered(kind: StaticType, v: seq<real>, lo: int, d: seq<real>, t: seq<int>)
  {
    0 <= lo && |t| == |d|
    && forall k :: Candidate(v, lo, t, k) ==> exists j :: Dominates(kind, v, d, t, k, j)
  }

  /** Bucket `k` is finished, from `lo` on, nonzero and not in the deque. */
  ghost predicate Candidate(v: seq<real>, lo: int, t: seq<int>, k: int)
  {
    0 <= lo <= k < |v| - 1 && v[k] != 0.0 && k !in t
  }

  /** Number of nonzero values. */
  function NonZero(v: seq<real>): nat
  {
    if |v| == 0 then 0 else (if v[0] != 0.0 then 1 else 0) + NonZero(v[1..])
  }

  function Dec(t: seq<int>): (r: seq<int>)
    ensures |r| == |t| && forall j :: 0 <= j < |t| ==> r[j] == t[j] - 1
  {
    seq(|t|, j requires 0 <= j < |t| => t[j] - 1)
  }

  function Range(from: int, count: nat): (r: seq<int>)
    ensures |r| == count && forall j :: 0 <= j < count ==> r[j] == from + j
  {
    seq(count, j => from + j)
  }

  /** Max/Min part of the invariant. */
  ghost predicate ExtremeConsistent(s: StaticState, w: seq<Item>, p: int, t: seq<int>, cur: int)
  {
    var n := s.size;
    n >= 2 && |w| == n && 0 <= p < n && 0 <= s.curPos < n && cur <= n - 1
    && s.curPos == (p + 1 + cur) % n
    && DequeOK(s.kind, Vals(w), 0, s.deque, t, cur)
    && (forall k :: 0 <= k < n - 1 && cur <= k ==> w[k].val == 0.0)
    && w[n - 1].val == s.curVal
    && (s.curVal != 0.0 ==> cur == n - 1)
    && s.cap == NonZero(Vals(w)[..n - 1])
  }

  /** The strategy `s` matches the buckets `w` of a window whose current bucket is at `p`. */
  ghost predicate Consistent(s: StaticState, w: seq<Item>, p: int, t: seq<int>, cur: int)
  {
    s.kind != StaticBase && s.size >= 1 && |w| == s.size && 0 <= p < s.size
    && s.totalSum == SumTotals(w)
    && (!IsExtreme(s.kind) ==> s.valSum == SumVals(w))
    && (IsExtreme(s.kind) ==> ExtremeConsistent(s, w, p, t, cur))
  }

  /** The tags after Reset evicts the oldest bucket, re-based on the rotated buckets. */
  ghost function ResetTags(s: StaticState, it: Item, index: int, t: seq<int>): seq<int>
    requires s.size > 0
  {
    var t1 := if |t| > 0 && |s.deque| > 0 && it.val == Front(s.deque) then t[1..] else t;
    var m := |PopWhile(s.kind, ShiftedDeque(s, it), s.curVal)|;
    var t2 := if Finalizes(s, index) then t1[..if m <= |t1| then m else |t1|] + [s.size - 1] else t1;
    Dec(t2)
  }

  ghost function ResetCur(s: StaticState, index: int, cur: int): int
    requires s.size > 0
  {
    if Finalizes(s, index) then s.size - 1 else cur - 1
  }

  /** The tags after Add pads the deque: the padded zeros stand for the buckets just before the current one. */
  ghost function AddTags(s: StaticState, index: int, t: seq<int>): seq<int>
    requires s.size > 0
  {
    var g := Gap(s, index);
    t + Range(s.size - 1 - g, if g >= 0 then g else 0)
  }

  // ---------------------------------------------------------------- helpers

  lemma {:induction false} SortedBound(t: seq<int>, lo: int, hi: int)
    requires Sorted(t) && forall j :: 0 <= j < |t| ==> lo <= t[j] < hi
    ensures |t| <= if hi - lo >= 0 then hi - lo else 0
  {
    if |t| > 0 {
      assert forall j :: 0 <= j < |t| - 1 ==> t[1..][j] == t[j + 1];
      SortedBound(t[1..], t[0] + 1, hi);
    }
  }

  lemma {:induction false} NonZeroAppend(a: seq<real>, x: real)
    ensures NonZero(a + [x]) == NonZero(a) + (if x != 0.0 then 1 else 0)
  {
    if |a| == 0 {
      assert [x][1..] == [];
    } else {
      assert (a + [x])[1..] == a[1..] + [x];
      NonZeroAppend(a[1..], x);
    }
  }

  lemma {:induction false} NonZeroZeros(k: nat)
    ensures NonZero(Zeros(k)) == 0
  {
    if k > 0 {
      assert Zeros(k)[1..] == Zeros(k - 1);
      NonZeroZeros(k - 1);
    }
  }

  /** A run with fewer nonzero values than entries holds a zero. */
  lemma {:induction false} NonZeroShort(v: seq<real>)
    requires NonZero(v) < |v|
    ensures exists k :: 0 <= k < |v| && v[k] == 0.0
  {
    if v[0] != 0.0 {
      NonZeroShort(v[1..]);
      var k :| 0 <= k < |v[1..]| && v[1..][k] == 0.0;
      assert v[k + 1] == 0.0;
    }
  }

  /** A run with as many nonzero values as entries holds no zero. */
  lemma {:induction false} NonZeroFull(v: seq<real>)
    requires NonZero(v) == |v|
    ensures forall k :: 0 <= k < |v| ==> v[k] != 0.0
  {
    if |v| > 0 {
      NonZeroBound(v[1..]);
      NonZeroFull(v[1..]);
      assert forall k :: 1 <= k < |v| ==> v[k] == v[1..][k - 1];
    }
  }

  lemma {:induction false} NonZeroBound(v: seq<real>)
    ensures NonZero(v) <= |v|
  {
    if |v| > 0 {
      NonZeroBound(v[1..]);
    }
  }

  // ---------------------------------------------------------------- deque steps

  /**
   * Reset's first step, the shift, on tags: the front is dropped when it equals the
   * evicted (oldest) bucket's value; when it did not come from that bucket it is a
   * padded 0.  Afterwards no tag refers to the oldest bucket.
   */
  lemma ShiftTagged(kind: StaticType, v: seq<real>, d: seq<real>, t: seq<int>, cur: int)
    requires |v| >= 2 && DequeOK(kind, v, 0, d, t, cur)
    ensures var sh := |d| > 0 && v[0] == Front(d);
            Tagged(v, 1, if sh then d[1..] else d, if sh then t[1..] else t, cur)
            && (sh && t[0] != 0 ==> d[0] == 0.0)
  {
    OpenDeque(kind, v, 0, d, t, cur);
    var sh := |d| > 0 && v[0] == Front(d);
    assert v[0] != 0.0 && 0 !in t ==> Candidate(v, 0, t, 0);
    if sh {
      assert forall j :: 0 <= j < |t| - 1 ==> t[1..][j] == t[j + 1] && t[0] < t[j + 1];
    } else if |t| > 0 {
      assert t[0] != 0;
    }
  }

  lemma ShapeDropFirst(kind: StaticType, d: seq<real>)
    requires |d| > 0 && Shape(kind, d)
    ensures Shape(kind, d[1..])
  {
    var d1 := d[1..];
    forall i, j | Rises(kind, d1, i, j)
      ensures Key(kind, d1[j]) <= 0.0 && ZeroBetween(d1, i, j)
    {
      assert d1[i] == d[i + 1] && d1[j] == d[j + 1];
      assert Rises(kind, d, i + 1, j + 1);
      var m :| i + 1 < m <= j + 1 && d[m] == 0.0;
      assert d1[m - 1] == 0.0;
    }
  }

  lemma ShiftCovered(kind: StaticType, v: seq<real>, d: seq<real>, t: seq<int>, cur: int)
    requires |v| >= 2 && DequeOK(kind, v, 0, d, t, cur)
    requires var sh := |d| > 0 && v[0] == Front(d); sh && t[0] != 0 ==> d[0] == 0.0
    ensures var sh := |d| > 0 && v[0] == Front(d);
            Covered(kind, v, 1, if sh then d[1..] else d, if sh then t[1..] else t)
  {
    OpenDeque(kind, v, 0, d, t, cur);
    var sh := |d| > 0 && v[0] == Front(d);
    var d1 := if sh then d[1..] else d;
    var t1 := if sh then t[1..] else t;
    forall k | Candidate(v, 1, t1, k)
      ensures exists j :: Dominates(kind, v, d1, t1, k, j)
    {
      assert Candidate(v, 0, t, k);
      var j :| Dominates(kind, v, d, t, k, j);
      if sh {
        assert j != 0;
        assert Dominates(kind, v, d1, t1, k, j - 1);
      } else {
        assert Dominates(kind, v, d1, t1, k, j);
      }
    }
  }

  /** Reset's shift keeps the deque invariant, now from the second-oldest bucket on. */
  lemma ShiftStep(kind: StaticType, v: seq<real>, d: seq<real>, t: seq<int>, cur: int)
    requires |v| >= 2 && DequeOK(kind, v, 0, d, t, cur)
    ensures var sh := |d| > 0 && v[0] == Front(d);
            DequeOK(kind, v, 1, if sh then d[1..] else d, if sh then t[1..] else t, cur)
  {
    var sh := |d| > 0 && v[0] == Front(d);
    OpenDeque(kind, v, 0, d, t, cur);
    OpenDeque(kind, v, 1, if sh then d[1..] else d, if sh then t[1..] else t, cur);
    ShiftTagged(kind, v, d, t, cur);
    ShiftCovered(kind, v, d, t, cur);
    if |d| > 0 && v[0] == Front(d) {
      ShapeDropFirst(kind, d);
    }
  }

  lemma FinalizeTagged(v: seq<real>, r: seq<real>, d: seq<real>, t: seq<int>, cv: real)
    requires |v| >= 2 && Tagged(v, 1, d, t, |v| - 1)
    requires cv == v[|v| - 1] && |r| <= |d| && r == d[..|r|]
    ensures |d| <= |v| - 2
    ensures Tagged(v, 1, r + [cv], t[..|r|] + [|v| - 1], |v|)
  {
    SortedBound(t, 1, |v| - 1);
    var t2 := t[..|r|] + [|v| - 1];
    assert forall j :: 0 <= j < |r| ==> t2[j] == t[j];
  }

  /** Popping what the finished value beats and pushing it keeps the shape. */
  lemma FinalizeShape(kind: StaticType, d: seq<real>, r: seq<real>, cv: real)
    requires Shape(kind, d)
    requires |r| <= |d| && r == d[..|r|]
    requires |r| > 0 ==> Key(kind, r[|r| - 1]) >= Key(kind, cv)
    ensures Shape(kind, r + [cv])
  {
    var m := |r|;
    var d2 := r + [cv];
    forall i, j | Rises(kind, d2, i, j)
      ensures Key(kind, d2[j]) <= 0.0 && ZeroBetween(d2, i, j)
    {
      assert d2[i] == d[i];
      if j < m {
        assert d2[j] == d[j];
        assert Rises(kind, d, i, j);
        var z :| i < z <= j && d[z] == 0.0;
        assert d2[z] == 0.0;
      } else {
        assert i < m - 1;
        assert Rises(kind, d, i, m - 1);
        var z :| i < z <= m - 1 && d[z] == 0.0;
        assert d2[z] == 0.0;
      }
    }
  }

  lemma FinalizeCovered(kind: StaticType, v: seq<real>, d: seq<real>, t: seq<int>, r: seq<real>, cv: real)
    requires |v| >= 2 && Tagged(v, 1, d, t, |v| - 1) && Covered(kind, v, 1, d, t)
    requires cv == v[|v| - 1] && cv != 0.0
    requires |r| <= |d| && r == d[..|r|]
    requires forall j :: |r| <= j < |d| ==> Key(kind, d[j]) < Key(kind, cv)
    ensures Covered(kind, v, 1, r + [cv], t[..|r|] + [|v| - 1])
  {
    var n := |v|;
    var m := |r|;
    var d2 := r + [cv];
    var t2 := t[..m] + [n - 1];
    assert forall j :: 0 <= j < m ==> d2[j] == d[j] && t2[j] == t[j];
    forall k | Candidate(v, 1, t2, k)
      ensures exists j :: Dominates(kind, v, d2, t2, k, j)
    {
      if k in t {
        var j :| 0 <= j < |t| && t[j] == k;
        assert j >= m;
        assert Dominates(kind, v, d2, t2, k, m);
      } else {
        assert Candidate(v, 1, t, k);
        var j :| Dominates(kind, v, d, t, k, j);
        if j < m {
          assert Dominates(kind, v, d2, t2, k, j);
        } else {
          assert Dominates(kind, v, d2, t2, k, m);
        }
      }
    }
  }

  /**
   * Reset's finalization: the newest entries the finished value beats are popped
   * and the value is pushed, tagged with the current bucket.  The push fits.
   */
  lemma FinalizeStep(kind: StaticType, v: seq<real>, d: seq<real>, t: seq<int>, cv: real)
    requires |v| >= 2 && DequeOK(kind, v, 1, d, t, |v| - 1)
    requires cv == v[|v| - 1] && cv != 0.0
    ensures |d| <= |v| - 2
    ensures var r := PopWhile(kind, d, cv);
            DequeOK(kind, v, 1, r + [cv], t[..|r|] + [|v| - 1], |v|)
  {
    var r := PopWhile(kind, d, cv);
    OpenDeque(kind, v, 1, d, t, |v| - 1);
    OpenDeque(kind, v, 1, r + [cv], t[..|r|] + [|v| - 1], |v|);
    FinalizeTagged(v, r, d, t, cv);
    FinalizeShape(kind, d, r, cv);
    PopWhileBeaten(kind, d, cv);
    FinalizeCovered(kind, v, d, t, r, cv);
  }

  /**
   * Re-basing on the rotated buckets: the oldest bucket leaves, an empty one
   * becomes current and every tag moves down by one.
   */
  lemma ReindexStep(kind: StaticType, v: seq<real>, d: seq<real>, t: seq<int>, cur: int)
    requires |v| >= 2 && DequeOK(kind, v, 1, d, t, cur)
    requires v[|v| - 1] == 0.0 || (|t| > 0 && t[|t| - 1] == |v| - 1)
    ensures DequeOK(kind, v[1..] + [0.0], 0, d, Dec(t), cur - 1)
  {
    var v' := v[1..] + [0.0];
    var t' := Dec(t);
    OpenDeque(kind, v, 1, d, t, cur);
    OpenDeque(kind, v', 0, d, t', cur - 1);
    assert forall k :: 0 <= k < |v| - 1 ==> v'[k] == v[k + 1];
    assert Tagged(v', 0, d, t', cur - 1);
    forall k | Candidate(v', 0, t', k)
      ensures exists j :: Dominates(kind, v', d, t', k, j)
    {
      assert k + 1 !in t;
      assert Candidate(v, 1, t, k + 1);
      var j :| Dominates(kind, v, d, t, k + 1, j);
      assert Dominates(kind, v', d, t', k, j);
    }
  }

  // ---------------------------------------------------------------- Reset and Add

  /** Reset on the deque when the current bucket holds a value: shift, finalize, re-base. */
  lemma ResetDequeFinalize(kind: StaticType, v: seq<real>, d: seq<real>, t: seq<int>,
                           d1: seq<real>, t1: seq<int>)
    requires |v| >= 2 && v[|v| - 1] != 0.0
    requires DequeOK(kind, v, 1, d1, t1, |v| - 1)
    ensures var r := PopWhile(kind, d1, v[|v| - 1]);
            |r| <= |d1| <= |v| - 2 && |r| <= |t1|
            && DequeOK(kind, v[1..] + [0.0], 0, r + [v[|v| - 1]], Dec(t1[..|r|] + [|v| - 1]), |v| - 1)
  {
    var cv := v[|v| - 1];
    FinalizeStep(kind, v, d1, t1, cv);
    var r := PopWhile(kind, d1, cv);
    ReindexStep(kind, v, r + [cv], t1[..|r|] + [|v| - 1], |v|);
  }

  /**
   * The whole of Reset on the deque, on raw values: shift, finalize when the
   * current bucket holds a value, re-base.  The push of the finished value fits.
   */
  lemma ResetDeque(kind: StaticType, v: seq<real>, d: seq<real>, t: seq<int>, cur: int,
                   d1: seq<real>, t1: seq<int>)
    requires |v| >= 2 && DequeOK(kind, v, 0, d, t, cur) && cur <= |v| - 1
    requires v[|v| - 1] != 0.0 ==> cur == |v| - 1
    requires var sh := |d| > 0 && v[0] == Front(d);
             d1 == (if sh then d[1..] else d) && t1 == (if sh then t[1..] else t)
    ensures v[|v| - 1] != 0.0 ==>
              var r := PopWhile(kind, d1, v[|v| - 1]);
              |r| <= |d1| <= |v| - 2 && |r| <= |t1|
              && DequeOK(kind, v[1..] + [0.0], 0, r + [v[|v| - 1]], Dec(t1[..|r|] + [|v| - 1]), |v| - 1)
    ensures v[|v| - 1] == 0.0 ==> DequeOK(kind, v[1..] + [0.0], 0, d1, Dec(t1), cur - 1)
  {
    ShiftStep(kind, v, d, t, cur);
    if v[|v| - 1] != 0.0 {
      ResetDequeFinalize(kind, v, d, t, d1, t1);
    } else {
      ReindexStep(kind, v, d1, t1, cur);
    }
  }

  lemma ValsRotate(w: seq<Item>)
    requires |w| > 0
    ensures Vals(w[1..] + [Empty]) == Vals(w)[1..] + [0.0]
  {
  }

  /** The count of nonzero finished buckets after the oldest leaves and the current one finishes. */
  lemma NonZeroRotate(v: seq<real>)
    requires |v| >= 2
    ensures NonZero((v[1..] + [0.0])[..|v| - 1])
            == NonZero(v[..|v| - 1]) - (if v[0] != 0.0 then 1 else 0) + (if v[|v| - 1] != 0.0 then 1 else 0)
  {
    var n := |v|;
    assert (v[1..] + [0.0])[..n - 1] == v[1..n - 1] + [v[n - 1]];
    NonZeroAppend(v[1..n - 1], v[n - 1]);
    assert v[..n - 1][1..] == v[1..n - 1];
  }

  /** On a consistent state, Reset of the oldest bucket finalizes exactly when the current bucket holds a value. */
  lemma FinalizesIff(s: StaticState, p: int, cur: int)
    requires s.size >= 2 && 0 <= p < s.size && cur <= s.size - 1
    requires s.curPos == (p + 1 + cur) % s.size
    requires s.curVal != 0.0 ==> cur == s.size - 1
    ensures Finalizes(s, (p + 1) % s.size) <==> s.curVal != 0.0
  {
    if s.curVal != 0.0 {
      DivUnique(p + s.size, s.size, 1, p);
    }
  }

  lemma ResetKeepsDeque(s: StaticState, w: seq<Item>, p: int, t: seq<int>, cur: int)
    requires IsExtreme(s.kind) && s.size >= 2 && |w| == s.size && 0 <= p < s.size && cur <= s.size - 1
    requires DequeOK(s.kind, Vals(w), 0, s.deque, t, cur)
    requires w[s.size - 1].val == s.curVal && (s.curVal != 0.0 ==> cur == s.size - 1)
    requires Finalizes(s, (p + 1) % s.size) <==> s.curVal != 0.0
    ensures var index := (p + 1) % s.size;
            !ResetOverflows(s, w[0], index)
            && DequeOK(s.kind, Vals(w[1..] + [Empty]), 0, ResetSpec(s, w[0], index).deque,
                       ResetTags(s, w[0], index, t), ResetCur(s, index, cur))
  {
    var n := s.size;
    var v := Vals(w);
    var it := w[0];
    var index := (p + 1) % n;
    var d1 := ShiftedDeque(s, it);
    var t1 := if |t| > 0 && |s.deque| > 0 && it.val == Front(s.deque) then t[1..] else t;
    var v' := Vals(w[1..] + [Empty]);
    assert v' == v[1..] + [0.0] by {
      ValsRotate(w);
    }
    assert |v| == n && v[n - 1] == s.curVal;
    if s.curVal != 0.0 {
      var r := PopWhile(s.kind, d1, s.curVal);
      var t2 := Dec(t1[..|r|] + [n - 1]);
      assert |r| < n && |r| <= |t1| && DequeOK(s.kind, v[1..] + [0.0], 0, r + [v[|v| - 1]], Dec(t1[..|r|] + [|v| - 1]), |v| - 1) by {
        ResetDeque(s.kind, v, s.deque, t, cur, d1, t1);
      }
      assert Finalizes(s, index);
      assert ResetSpec(s, it, index).deque == r + [s.curVal];
      assert ResetTags(s, it, index, t) == t2;
    } else {
      assert DequeOK(s.kind, v[1..] + [0.0], 0, d1, Dec(t1), cur - 1) by {
        ResetDeque(s.kind, v, s.deque, t, cur, d1, t1);
      }
      assert ResetSpec(s, it, index).deque == d1;
      assert ResetTags(s, it, index, t) == Dec(t1);
    }
  }


  lemma ResetKeepsPos(s: StaticState, p: int, cur: int)
    requires IsExtreme(s.kind) && s.size >= 2 && 0 <= p < s.size && cur <= s.size - 1
    requires s.curPos == (p + 1 + cur) % s.size
    ensures var index := (p + 1) % s.size;
            ResetSpec(s, Empty, index).curPos == (index + 1 + ResetCur(s, index, cur)) % s.size
  {
    var n := s.size;
    var index := (p + 1) % n;
    if Finalizes(s, index) {
      DivUnique(index + n, n, 1, index);
      assert ResetSpec(s, Empty, index).curPos == index;
    } else {
      ShiftedPos(p, cur, n);
      assert ResetSpec(s, Empty, index).curPos == s.curPos;
    }
  }

  lemma ShiftedPos(p: int, cur: int, n: int)
    requires n > 0
    ensures ((p + 1) % n + 1 + (cur - 1)) % n == (p + 1 + cur) % n
  {
    ModAddLeft(p + 1, cur, n);
  }

  /** Reset's update of `cap`, `curVal` and the empty tail, against the rotated buckets. */
  lemma ResetKeepsCounts(s: StaticState, w: seq<Item>, p: int, cur: int)
    requires IsExtreme(s.kind) && s.size >= 2 && |w| == s.size && 0 <= p < s.size && cur <= s.size - 1
    requires forall k :: 0 <= k < s.size - 1 && cur <= k ==> w[k].val == 0.0
    requires w[s.size - 1].val == s.curVal && (s.curVal != 0.0 ==> cur == s.size - 1)
    requires s.cap == NonZero(Vals(w)[..s.size - 1])
    requires Finalizes(s, (p + 1) % s.size) <==> s.curVal != 0.0
    ensures var index := (p + 1) % s.size;
            var s' := ResetSpec(s, w[0], index);
            var w' := w[1..] + [Empty];
            var cur' := ResetCur(s, index, cur);
            (forall k :: 0 <= k < s.size - 1 && cur' <= k ==> w'[k].val == 0.0)
            && w'[s.size - 1].val == s'.curVal && s'.curVal == 0.0
            && s'.cap == NonZero(Vals(w')[..s.size - 1])
  {
    var n := s.size;
    var w' := w[1..] + [Empty];
    assert forall k :: 0 <= k < n - 1 ==> w'[k] == w[k + 1];
    ValsRotate(w);
    NonZeroRotate(Vals(w));
  }

  /**
   * Max/Min Reset of the oldest bucket keeps the invariant, re-based on the rotated
   * buckets, and never overflows the queue.
   */
  lemma ExtremeResetKeeps(s: StaticState, w: seq<Item>, p: int, t: seq<int>, cur: int)
    requires IsExtreme(s.kind) && ExtremeConsistent(s, w, p, t, cur)
    ensures var index := (p + 1) % s.size;
            !ResetOverflows(s, w[0], index)
            && ExtremeConsistent(ResetSpec(s, w[0], index), w[1..] + [Empty], index,
                                 ResetTags(s, w[0], index, t), ResetCur(s, index, cur))
  {
    FinalizesIff(s, p, cur);
    ResetKeepsDeque(s, w, p, t, cur);
    ResetKeepsPos(s, p, cur);
    ResetKeepsCounts(s, w, p, cur);
  }



  /** The padding Add computes is the number of buckets between `curPos` and the current one. */
  lemma AddGap(s: StaticState, p: int, cur: int)
    requires s.size >= 2 && 0 <= p < s.size && 0 <= s.curPos < s.size && cur <= s.size - 1
    requires s.curPos == (p + 1 + cur) % s.size
    ensures 0 <= Gap(s, p) < s.size
    ensures 0 <= cur ==> Gap(s, p) == s.size - 1 - cur
  {
    var n := s.size;
    if p != s.curPos {
      var q := (p + 1 + cur) / n;
      assert p + 1 + cur == q * n + s.curPos;
      if 0 <= cur {
        DivUnique(p + n - s.curPos, n, q, n - 1 - cur);
      }
    } else if 0 <= cur {
      ModIsWrap(p + 1 + cur, n);
    }
  }

  /** Padding the deque with zeros for the skipped (empty) buckets keeps the deque invariant. */
  lemma AddKeepsDeque(kind: StaticType, v: seq<real>, v': seq<real>, d: seq<real>, t: seq<int>, cur: int, g: int)
    requires |v| >= 2 && |v'| == |v| && DequeOK(kind, v, 0, d, t, cur)
    requires forall k :: 0 <= k < |v| - 1 ==> v'[k] == v[k]
    requires forall k :: 0 <= k < |v| - 1 && cur <= k ==> v[k] == 0.0
    requires 0 <= g < |v| && (0 <= cur ==> g == |v| - 1 - cur)
    ensures |d| + g <= |v|
    ensures DequeOK(kind, v', 0, d + Zeros(g), t + Range(|v| - 1 - g, g), |v| - 1)
  {
    OpenDeque(kind, v, 0, d, t, cur);
    OpenDeque(kind, v', 0, d + Zeros(g), t + Range(|v| - 1 - g, g), |v| - 1);
    SortedBound(t, 0, cur);
    PaddedTagged(v, v', d, t, cur, g);
    PaddedShape(kind, d, g);
    PaddedCovered(kind, v, v', d, t, g);
  }

  /** The padding zeros are tagged with the skipped buckets, which are the ones before the current. */
  lemma PaddedTagged(v: seq<real>, v': seq<real>, d: seq<real>, t: seq<int>, cur: int, g: int)
    requires |v| >= 2 && |v'| == |v| && Tagged(v, 0, d, t, cur)
    requires forall k :: 0 <= k < |v| - 1 ==> v'[k] == v[k]
    requires forall k :: 0 <= k < |v| - 1 && cur <= k ==> v[k] == 0.0
    requires 0 <= g < |v| && (0 <= cur ==> g == |v| - 1 - cur)
    ensures Tagged(v', 0, d + Zeros(g), t + Range(|v| - 1 - g, g), |v| - 1)
  {
    var n := |v|;
    SortedBound(t, 0, cur);
    var d' := d + Zeros(g);
    var t' := t + Range(n - 1 - g, g);
    assert Sorted(t');
    forall j | 0 <= j < |t'|
      ensures d'[j] == v'[t'[j]]
    {
      if j >= |t| {
        assert v[n - 1 - g + (j - |t|)] == 0.0;
      }
    }
  }

  /** Appending zeros keeps the deque's shape: a rise is always across a zero. */
  lemma PaddedShape(kind: StaticType, d: seq<real>, g: int)
    requires Shape(kind, d) && 0 <= g
    ensures Shape(kind, d + Zeros(g))
  {
    var d' := d + Zeros(g);
    forall i, j | Rises(kind, d', i, j)
      ensures Key(kind, d'[j]) <= 0.0 && ZeroBetween(d', i, j)
    {
      if j < |d| {
        assert Rises(kind, d, i, j);
        var m :| i < m <= j && d[m] == 0.0;
        assert d'[m] == 0.0;
      } else {
        assert d'[j] == 0.0;
      }
    }
  }

  /** The buckets the padding tags are zero, so no new bucket needs covering. */
  lemma PaddedCovered(kind: StaticType, v: seq<real>, v': seq<real>, d: seq<real>, t: seq<int>, g: int)
    requires |v| >= 2 && |v'| == |v| && Covered(kind, v, 0, d, t)
    requires forall k :: 0 <= k < |v| - 1 ==> v'[k] == v[k]
    requires 0 <= g
    ensures Covered(kind, v', 0, d + Zeros(g), t + Range(|v| - 1 - g, g))
  {
    var d' := d + Zeros(g);
    var t' := t + Range(|v| - 1 - g, g);
    forall k | Candidate(v', 0, t', k)
      ensures exists j :: Dominates(kind, v', d', t', k, j)
    {
      assert Candidate(v, 0, t, k);
      var j :| Dominates(kind, v, d, t, k, j);
      assert Dominates(kind, v', d', t', k, j);
    }
  }

  /** Max/Min Add at the current bucket keeps the invariant and never overflows the queue. */
  lemma ExtremeAddKeeps(s: StaticState, w: seq<Item>, p: int, t: seq<int>, cur: int, x: real)
    requires IsExtreme(s.kind) && ExtremeConsistent(s, w, p, t, cur)
    ensures !AddOverflows(s, p)
    ensures ExtremeConsistent(AddSpec(s, x, p), w[s.size - 1 := w[s.size - 1].Add(x)], p,
                              AddTags(s, p, t), s.size - 1)
  {
    var n := s.size;
    var w' := w[n - 1 := w[n - 1].Add(x)];
    AddGap(s, p, cur);
    var g := Gap(s, p);
    assert forall k :: 0 <= k < n - 1 ==> Vals(w')[k] == Vals(w)[k];
    assert Vals(w')[..n - 1] == Vals(w)[..n - 1];
    AddKeepsDeque(s.kind, Vals(w), Vals(w'), s.deque, t, cur, g);
    assert AddSpec(s, x, p).deque == s.deque + Zeros(g);
    assert AddTags(s, p, t) == t + Range(n - 1 - g, g);
    DivUnique(p + n, n, 1, p);
  }

  // ---------------------------------------------------------------- whole invariant

  /** A fresh strategy matches a fresh window: all buckets empty, position 0. */
  lemma FreshConsistent(kind: StaticType, n: int, ignoreCurrent: bool)
    requires kind != StaticBase && n >= 1 && (IsExtreme(kind) ==> n >= 2)
    ensures Consistent(Fresh(kind, n, ignoreCurrent), Blank(n), 0, [], n - 1)
  {
    SumsBlank(n);
    if IsExtreme(kind) {
      assert Vals(Blank(n))[..n - 1] == Zeros(n - 1);
      NonZeroZeros(n - 1);
      DivUnique(n, n, 1, 0);
      OpenDeque(kind, Vals(Blank(n)), 0, [], [], n - 1);
    }
  }

  /**
   * Reset of the oldest bucket, followed by clearing it and making it current,
   * keeps the strategy consistent with the buckets (Sum/Avg: the running sums
   * equal the sums over the window; all kinds: so does the running count).
   */
  lemma ResetKeeps(s: StaticState, w: seq<Item>, p: int, t: seq<int>, cur: int)
    requires Consistent(s, w, p, t, cur)
    ensures var index := (p + 1) % s.size;
            !ResetOverflows(s, w[0], index)
            && Consistent(ResetSpec(s, w[0], index), w[1..] + [Empty], index,
                          ResetTags(s, w[0], index, t), ResetCur(s, index, cur))
  {
    SumsDropFirst(w);
    SumsAppend(w[1..], [Empty]);
    SumsSingle(Empty);
    if IsExtreme(s.kind) {
      ExtremeResetKeeps(s, w, p, t, cur);
    }
  }

  /** Item.Add on the newest bucket adds one value and one count to the sums over the window. */
  lemma SumsAddLast(w: seq<Item>, x: real)
    requires |w| > 0
    ensures SumVals(w[|w| - 1 := w[|w| - 1].Add(x)]) == SumVals(w) + x
    ensures SumTotals(w[|w| - 1 := w[|w| - 1].Add(x)]) == SumTotals(w) + 1
  {
    var n := |w|;
    assert w[n - 1 := w[n - 1].Add(x)][..n - 1] == w[..n - 1];
  }

  /** Add at the current bucket, followed by Item.Add on it, keeps the strategy consistent. */
  lemma AddKeeps(s: StaticState, w: seq<Item>, p: int, t: seq<int>, cur: int, x: real)
    requires Consistent(s, w, p, t, cur)
    ensures !AddOverflows(s, p)
    ensures Consistent(AddSpec(s, x, p), w[s.size - 1 := w[s.size - 1].Add(x)], p,
                       AddTags(s, p, t), if IsExtreme(s.kind) then s.size - 1 else cur)
  {
    SumsAddLast(w, x);
    if IsExtreme(s.kind) {
      ExtremeAddKeeps(s, w, p, t, cur, x);
    }
  }

  // ---------------------------------------------------------------- value

  /** A zero among the finished buckets means the strategy does not count them all as nonzero. */
  lemma ZeroMeansShort(v: seq<real>, k: int)
    requires 0 <= k < |v| && v[k] == 0.0
    ensures NonZero(v) < |v|
  {
    NonZeroBound(v);
    if NonZero(v) == |v| {
      NonZeroFull(v);
    }
  }

  /** No deque entry beats the clamped front. */
  lemma EntryBelowFront(s: StaticState, v: seq<real>, t: seq<int>, cur: int, j: int)
    requires IsExtreme(s.kind) && s.size >= 2 && |v| == s.size - 1 && cur <= s.size - 1
    requires Tagged(v, 0, s.deque, t, cur) && Shape(s.kind, s.deque)
    requires s.cap == NonZero(v)
    requires 0 <= j < |s.deque|
    ensures Key(s.kind, s.deque[j]) <= Key(s.kind, ClampedFront(s))
  {
    var d := s.deque;
    if Rises(s.kind, d, 0, j) {
      assert ZeroBetween(d, 0, j);
      var m :| 0 < m <= j && d[m] == 0.0;
      ZeroMeansShort(v, t[m]);
    }
  }

  /**
   * The clamped front of the deque is the extreme of the finished buckets: this is
   * why Max/Min Value can answer without scanning the window.
   */
  lemma FrontIsExtreme(s: StaticState, w: seq<Item>, t: seq<int>, cur: int)
    requires IsExtreme(s.kind) && s.size >= 2 && |w| == s.size && cur <= s.size - 1
    requires DequeOK(s.kind, Vals(w), 0, s.deque, t, cur)
    requires s.cap == NonZero(Vals(w)[..s.size - 1])
    ensures ClampedFront(s) == Extreme(s.kind, w[..s.size - 1])
  {
    var n := s.size;
    var d := s.deque;
    var u := w[..n - 1];
    var v := Vals(w)[..n - 1];
    var c := ClampedFront(s);
    OpenDeque(s.kind, Vals(w), 0, d, t, cur);
    assert Tagged(v, 0, d, t, cur) by {
      forall j | 0 <= j < |t|
        ensures d[j] == v[t[j]]
      {
        assert t[j] < cur;
      }
    }
    forall k | 0 <= k < |u|
      ensures Key(s.kind, c) >= Key(s.kind, u[k].val)
    {
      assert u[k].val == v[k];
      if v[k] == 0.0 {
        ZeroMeansShort(v, k);
      } else if k in t {
        var j :| 0 <= j < |t| && t[j] == k;
        EntryBelowFront(s, v, t, cur, j);
      } else {
        assert Candidate(Vals(w), 0, t, k);
        var j :| Dominates(s.kind, Vals(w), d, t, k, j);
        EntryBelowFront(s, v, t, cur, j);
      }
    }
    if s.cap >= n - 1 {
      NonZeroBound(v);
      NonZeroFull(v);
      if 0 !in t {
        assert Candidate(Vals(w), 0, t, 0);
      }
    }
    if |d| > 0 && c == d[0] {
      ExtremeUnique(s.kind, u, c, t[0]);
    } else {
      NonZeroShort(v);
      var k :| 0 <= k < |v| && v[k] == 0.0;
      ExtremeUnique(s.kind, u, c, k);
    }
  }

  /**
   * The online statistic equals the fold over the buckets it covers: Value and
   * Total of a consistent strategy, read at the current bucket, are what the
   * calculates functions compute from scratch.
   */
  lemma ValueAgrees(s: StaticState, w: seq<Item>, p: int, t: seq<int>, cur: int)
    requires Consistent(s, w, p, t, cur)
    ensures ValueOf(s, w[s.size - 1])
         == FoldValue(s.kind, Visible(w, s.ignoreCurrent), ItemNum(s.size, s.ignoreCurrent))
    ensures TotalOf(s, w[s.size - 1]) == SumTotals(Visible(w, s.ignoreCurrent))
  {
    var n := s.size;
    SumsDropLast(w);
    if IsExtreme(s.kind) {
      ExtremeValueAgrees(s, w, p, t, cur);
    } else {
      assert Visible(w, s.ignoreCurrent) == if s.ignoreCurrent then w[..n - 1] else w;
    }
  }

  /**
   * Max as written on a window of one bucket disagrees with the fold, which is
   * why Consistent asks for two buckets.  The empty queue's 0 stands in for a
   * finished bucket, so after Add(-3) Value reads 0 where the fold over the one
   * bucket gives -3.  And Reset finalizes the current bucket into the deque as
   * it evicts that same bucket, so one slot after Add(5) Value still reads 5
   * where Cal visits nothing and the fold gives 0.
   */
  lemma SingleBucketWitness()
    ensures var s := AddSpec(Fresh(StaticMax, 1, false), -3.0, 0);
            ValueOf(s, Item(-3.0, 1)) == 0.0
            && FoldValue(StaticMax, CalView([Item(-3.0, 1)], 0, false), ItemNum(1, false)) == -3.0
    ensures var s := ResetSpec(AddSpec(Fresh(StaticMax, 1, false), 5.0, 0), Item(5.0, 1), 0);
            ValueOf(s, Empty) == 5.0
            && FoldValue(StaticMax, CalView([Item(5.0, 1)], 1, false), ItemNum(1, false)) == 0.0
  {
  }

  /**
   * Max as written on a window of one bucket overflows its queue when a value
   * is followed in the next slot by a smaller one: the larger value is still in
   * the deque when Reset finalizes the smaller.  A rising or a repeated pair
   * leaves room, because PopWhile drops the smaller front, or the shift drops
   * the equal one.
   */
  lemma SingleBucketOverflow()
    ensures var s := ResetSpec(AddSpec(Fresh(StaticMax, 1, false), 5.0, 0), Item(5.0, 1), 0);
            ResetOverflows(AddSpec(s, 3.0, 0), Item(3.0, 1), 0)
    ensures var s := ResetSpec(AddSpec(Fresh(StaticMax, 1, false), 1.0, 0), Item(1.0, 1), 0);
            !ResetOverflows(AddSpec(s, 3.0, 0), Item(3.0, 1), 0)
    ensures var s := ResetSpec(AddSpec(Fresh(StaticMax, 1, false), 5.0, 0), Item(5.0, 1), 0);
            !ResetOverflows(AddSpec(s, 5.0, 0), Item(5.0, 1), 0)
  {
  }

  /** ValueAgrees for Max/Min: the clamped front, folded with the current bucket unless it is ignored. */
  lemma ExtremeValueAgrees(s: StaticState, w: seq<Item>, p: int, t: seq<int>, cur: int)
    requires IsExtreme(s.kind) && ExtremeConsistent(s, w, p, t, cur)
    ensures ValueOf(s, w[s.size - 1])
         == ExtremeResult(s.kind, Visible(w, s.ignoreCurrent), ItemNum(s.size, s.ignoreCurrent))
  {
    var n := s.size;
    FrontIsExtreme(s, w, t, cur);
    var front := ClampedFront(s);
    assert w[..n - 1] == w[..|w| - 1];
    assert front == Extreme(s.kind, w[..n - 1]);
    if s.ignoreCurrent {
      assert Visible(w, true) == w[..n - 1];
      assert ExtremeResult(s.kind, w[..n - 1], n - 1) == Extreme(s.kind, w[..n - 1]);
    } else {
      assert Extreme(s.kind, w) == Pick(s.kind, front, w[n - 1].val);
    }
  }

}
