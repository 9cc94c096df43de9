/**
 * The extended reals: the finite values of an `f64` plus its two infinities.
 * Interval bounds use them, because `Interval::empty` and `Interval::universe`
 * are built from `f64::INFINITY` and `f64::NEG_INFINITY`.
 */
module ExtReals {

  datatype ExtReal = NegInf | Fin(r: real) | PosInf {

    /** Strict order: NegInf < every finite value < PosInf. */
    predicate Lt(o: ExtReal) {
      match (this, o)
      case (NegInf, NegInf) => false
      case (NegInf, _) => true
      case (Fin(a), Fin(b)) => a < b
      case (Fin(_), PosInf) => true
      case (_, _) => false
    }

    predicate Le(o: ExtReal) {
      this == o || Lt(o)
    }

    function Min(o: ExtReal): (m: ExtReal)
      ensures m.Le(this) && m.Le(o)
      ensures m == this || m == o
    {
      if o.Lt(this) then o else this
    }

    function Max(o: ExtReal): (m: ExtReal)
      ensures this.Le(m) && o.Le(m)
      ensures m == this || m == o
    {
      if this.Lt(o) then o else this
    }

    /** `this + d` for a finite `d`; an infinity absorbs it. */
    function Plus(d: real): (s: ExtReal)
      ensures s.Fin? == this.Fin?
      ensures s.Fin? ==> s.r == r + d
    {
      match this
      case Fin(a) => Fin(a + d)
      case _ => this
    }
  }

  lemma LtIsStrictOrder(a: ExtReal, b: ExtReal, c: ExtReal)
    ensures !a.Lt(a)
    ensures a.Lt(b) ==> !b.Lt(a)
    ensures a.Lt(b) && b.Lt(c) ==> a.Lt(c)
    ensures a.Lt(b) || a == b || b.Lt(a)
  {
  }
}
