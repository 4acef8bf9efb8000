/**
 * A bucket of the rolling window (the `Item` record of rolling_window.go): the
 * sum of the values added while the bucket was current and how many there were.
 */
module Buckets {

  datatype Item = Item(val: real, total: int)
  {
    /** Item.Add: record one value. */
    function Add(v: real): (r: Item)
      ensures r.val == val + v && r.total == total + 1
    {
      Item(val + v, total + 1)
    }
  }

  /** The bucket every slot starts with, and the one Item.Reset leaves behind. */
  const Empty := Item(0.0, 0)

  /** `k` empty buckets. */
  function Blank(k: nat): (b: seq<Item>)
    ensures |b| == k && forall j :: 0 <= j < k ==> b[j] == Empty
  {
    seq(k, _ => Empty)
  }

  /** The values of a run of buckets. */
  function Vals(w: seq<Item>): (v: seq<real>)
    ensures |v| == |w| && forall j :: 0 <= j < |w| ==> v[j] == w[j].val
  {
    seq(|w|, j requires 0 <= j < |w| => w[j].val)
  }

  /** Sum of the values, accumulated from the oldest bucket to the newest. */
  function SumVals(w: seq<Item>): real
  {
    if |w| == 0 then 0.0 else SumVals(w[..|w| - 1]) + w[|w| - 1].val
  }

  /** Sum of the counts, accumulated from the oldest bucket to the newest. */
  function SumTotals(w: seq<Item>): int
  {
    if |w| == 0 then 0 else SumTotals(w[..|w| - 1]) + w[|w| - 1].total
  }

  /** Both sums split over a concatenation. */
  lemma {:induction false} SumsAppend(a: seq<Item>, b: seq<Item>)
    ensures SumVals(a + b) == SumVals(a) + SumVals(b)
    ensures SumTotals(a + b) == SumTotals(a) + SumTotals(b)
  {
    if |b| == 0 {
      assert a + b == a;
    } else {
      var b' := b[..|b| - 1];
      assert (a + b)[..|a + b| - 1] == a + b';
      SumsAppend(a, b');
    }
  }

  /** Empty buckets add nothing to either sum. */
  lemma {:induction false} SumsBlank(k: nat)
    ensures SumVals(Blank(k)) == 0.0 && SumTotals(Blank(k)) == 0
  {
    if k > 0 {
      assert Blank(k)[..k - 1] == Blank(k - 1);
      SumsBlank(k - 1);
    }
  }

  /** Both sums of a one-bucket run. */
  lemma SumsSingle(it: Item)
    ensures SumVals([it]) == it.val && SumTotals([it]) == it.total
  {
    assert [it][..0] == [];
  }

  /** Dropping the oldest bucket removes exactly its value and count from the sums. */
  lemma SumsDropFirst(w: seq<Item>)
    requires |w| > 0
    ensures SumVals(w[1..]) == SumVals(w) - w[0].val
    ensures SumTotals(w[1..]) == SumTotals(w) - w[0].total
  {
    assert w == [w[0]] + w[1..];
    SumsAppend([w[0]], w[1..]);
    SumsSingle(w[0]);
  }

  /** Dropping the newest bucket removes exactly its value and count from the sums. */
  lemma SumsDropLast(w: seq<Item>)
    requires |w| > 0
    ensures SumVals(w[..|w| - 1]) == SumVals(w) - w[|w| - 1].val
    ensures SumTotals(w[..|w| - 1]) == SumTotals(w) - w[|w| - 1].total
  {
  }
}
