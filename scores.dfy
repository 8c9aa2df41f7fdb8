/**
 * Java doubles as the scoring engine uses them. A score is a real number or
 * NaN ("unknown"); a quotient may also be an infinity when its denominator is 0.
 */
module Scores {
  /** A score: Double.NaN is Unknown. */
  datatype Score = Known(r: real) | Unknown

  /** Java double addition on scores: NaN absorbs everything. */
  function Plus(a: Score, b: Score): (s: Score)
    ensures s.Known? <==> a.Known? && b.Known?
  {
    if a.Known? && b.Known? then Known(a.r + b.r) else Unknown
  }

  /** Adding three scores in either grouping gives the same score (exact over the reals). */
  lemma PlusAssociative(a: Score, b: Score, c: Score)
    ensures Plus(Plus(a, b), c) == Plus(a, Plus(b, c))
  {
  }

  /** Java double division by a nonzero real: NaN stays NaN. */
  function Quotient(x: Score, d: real): (q: Score)
    requires d != 0.0
    ensures q.Known? <==> x.Known?
  {
    if x.Known? then Known(x.r / d) else Unknown
  }

  /** A Java double that may be infinite or NaN: the result of an unguarded division. */
  datatype Double = Finite(v: real) | PosInf | NegInf | NaN

  /** IEEE division of a score by a real: x/0 is +Infinity, -Infinity or NaN by the sign of x. */
  function Divide(x: Score, y: real): (q: Double)
    ensures x.Unknown? ==> q.NaN?
    ensures x.Known? && y != 0.0 ==> q == Finite(x.r / y)
    ensures x.Known? && y == 0.0 ==> (q.PosInf? <==> x.r > 0.0) && (q.NegInf? <==> x.r < 0.0) && (q.NaN? <==> x.r == 0.0)
  {
    match x
    case Unknown => NaN
    case Known(r) =>
      if y != 0.0 then Finite(r / y)
      else if r > 0.0 then PosInf
      else if r < 0.0 then NegInf
      else NaN
  }

  /** d >= t in Java: false whenever d is NaN. */
  predicate AtLeast(d: Double, t: real)
  {
    match d
    case Finite(v) => v >= t
    case PosInf => true
    case NegInf => false
    case NaN => false
  }

  /** d < t in Java: false whenever d is NaN. */
  predicate Below(d: Double, t: real)
  {
    match d
    case Finite(v) => v < t
    case PosInf => false
    case NegInf => true
    case NaN => false
  }

  /** A score as a double. */
  function AsDouble(s: Score): (d: Double)
    ensures d.NaN? <==> s.Unknown?
  {
    if s.Known? then Finite(s.r) else NaN
  }

  lemma NaNComparesFalse(t: real)
    ensures !AtLeast(NaN, t) && !Below(NaN, t)
  {
  }
}
