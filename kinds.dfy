/**
 * The statistic kinds a window can maintain (StaticType of statics.go) and the
 * one comparison that the Max and Min variants share.
 */
module Kinds {

  datatype StaticType = StaticBase | StaticSum | StaticMin | StaticMax | StaticAvg

  predicate IsExtreme(kind: StaticType)
  {
    kind == StaticMax || kind == StaticMin
  }

  /**
   * The ordering key of a value: the value itself when the largest is wanted,
   * its negation when the smallest is.  "a beats b" is `Key(a) > Key(b)`.
   */
  function Key(kind: StaticType, x: real): real
  {
    if kind == StaticMin then -x else x
  }

  lemma KeyInjective(kind: StaticType, x: real, y: real)
    requires Key(kind, x) == Key(kind, y)
    ensures x == y
  {
  }

  /** math.Max for StaticMax (and the folds that use it), math.Min for StaticMin. */
  function Pick(kind: StaticType, a: real, b: real): (r: real)
    ensures r == a || r == b
    ensures Key(kind, r) >= Key(kind, a) && Key(kind, r) >= Key(kind, b)
  {
    if Key(kind, a) >= Key(kind, b) then a else b
  }
}
