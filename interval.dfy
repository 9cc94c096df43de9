/**
 * Closed ranges of ray parameters, `src/interval.rs`.  Every operation returns a
 * fresh interval; none mutates its receiver.
 */
module Intervals {
  import opened Wrappers
  import opened ExtReals

  datatype Interval = Interval(min: ExtReal, max: ExtReal) {

    /** `max - min`; the difference of two equal infinities is an IEEE NaN, `None` here. */
    function Size(): (s: Option<ExtReal>)
      ensures s.None? <==> (min == max && !min.Fin?)
      ensures min.Fin? && max.Fin? ==> s == Some(Fin(max.r - min.r))
      ensures min.Fin? && max == PosInf ==> s == Some(PosInf)
      ensures min == PosInf && max != PosInf ==> s == Some(NegInf)
      ensures min == NegInf && max != NegInf ==> s == Some(PosInf)
      ensures max == NegInf && min != NegInf ==> s == Some(NegInf)
    {
      match (min, max)
      case (Fin(a), Fin(b)) => Some(Fin(b - a))
      case (PosInf, PosInf) => None
      case (NegInf, NegInf) => None
      case (_, PosInf) => Some(PosInf)
      case (PosInf, _) => Some(NegInf)
      case (_, NegInf) => Some(NegInf)
      case (NegInf, _) => Some(PosInf)
    }

    /** Closed membership `min <= x <= max`. */
    predicate Contains(x: real) {
      min.Le(Fin(x)) && Fin(x).Le(max)
    }

    /** Open membership `min < x < max`. */
    predicate Surrounds(x: real) {
      min.Lt(Fin(x)) && Fin(x).Lt(max)
    }

    /** `x.min(max).max(min)`: the upper bound is applied first. */
    function Clamp(x: real): (c: ExtReal)
      ensures min.Le(max) ==> min.Le(c) && c.Le(max)
      ensures Contains(x) ==> c == Fin(x)
      ensures Fin(x).Lt(min) ==> c == min
      ensures min.Le(max) && max.Lt(Fin(x)) ==> c == max
    {
      Fin(x).Min(max).Max(min)
    }

    /** Widen by `delta`, half on each side. */
    function Expand(delta: real): (e: Interval)
      ensures e.min.Fin? == min.Fin? && e.max.Fin? == max.Fin?
      ensures min.Fin? ==> e.min.r == min.r - delta / 2.0
      ensures max.Fin? ==> e.max.r == max.r + delta / 2.0
      ensures min.Fin? && max.Fin? ==> e.Size() == Some(Fin(max.r - min.r + delta))
    {
      var padding := delta * 0.5;
      Interval(min.Plus(-padding), max.Plus(padding))
    }
  }

  function New(min: ExtReal, max: ExtReal): (i: Interval)
    ensures i.min == min && i.max == max
  {
    Interval(min, max)
  }

  /** `Interval::default()`, also `Interval::empty()`: `[+inf, -inf]`. */
  function Empty(): (i: Interval)
    ensures i.max.Lt(i.min)
    ensures forall x :: !i.Contains(x)
  {
    Interval(PosInf, NegInf)
  }

  /** `[-inf, +inf]`. */
  function Universe(): (i: Interval)
    ensures forall x :: i.Contains(x) && i.Surrounds(x)
  {
    Interval(NegInf, PosInf)
  }

  /** The smallest interval holding both; the union when they overlap. */
  function Enclosing(a: Interval, b: Interval): (e: Interval)
    ensures Encloses(e, a) && Encloses(e, b)
    ensures e.min == a.min || e.min == b.min
    ensures e.max == a.max || e.max == b.max
  {
    Interval(a.min.Min(b.min), a.max.Max(b.max))
  }

  /** `outer` reaches at least as far as `inner` on both sides. */
  predicate Encloses(outer: Interval, inner: Interval) {
    outer.min.Le(inner.min) && inner.max.Le(outer.max)
  }

  /** Every point of either operand lies in the enclosing interval. */
  lemma EnclosingContains(a: Interval, b: Interval, x: real)
    requires a.Contains(x) || b.Contains(x)
    ensures Enclosing(a, b).Contains(x)
  {
  }

  lemma EnclosingCommutes(a: Interval, b: Interval)
    ensures Enclosing(a, b) == Enclosing(b, a)
  {
  }

  /** The empty interval is the neutral element of `Enclosing`, on both sides. */
  lemma EnclosingEmpty(b: Interval)
    ensures Enclosing(Empty(), b) == b
    ensures Enclosing(b, Empty()) == b
  {
  }

  lemma SurroundsImpliesContains(i: Interval, x: real)
    requires i.Surrounds(x)
    ensures i.Contains(x)
  {
  }
}
