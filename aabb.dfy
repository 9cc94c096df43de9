/**
 * Axis-aligned bounding boxes, `src/aabb.rs`: three per-axis intervals and the
 * slab test that decides whether a ray passes through the box.
 */
module Boxes {
  import opened Wrappers
  import opened ExtReals
  import opened Intervals
  import opened Vectors
  import opened Rays

  /** The minimum thickness `pad_to_minimum` compares against. */
  const PadDelta: real := 0.0001

  datatype Aabb = Aabb(x: Interval, y: Interval, z: Interval) {

    /** Axis 1 is y, axis 2 is z, every other value selects x. */
    function AxisInterval(axis: nat): (i: Interval)
      ensures axis == 1 ==> i == y
      ensures axis == 2 ==> i == z
      ensures axis != 1 && axis != 2 ==> i == x
    {
      match axis
      case 1 => y
      case 2 => z
      case _ => x
    }

    /** The running interval after the slab of one axis has been applied. */
    function SlabStep(ray: Ray, axis: nat, rt: Interval): (n: Interval)
      requires axis < 3
      ensures rt.min.Le(n.min) && n.max.Le(rt.max)
    {
      var ax := AxisInterval(axis);
      var invD := Recip(ray.direction.Axis(axis));
      var t0 := SlabT(ax.min, ray.origin.Axis(axis), invD);
      var t1 := SlabT(ax.max, ray.origin.Axis(axis), invD);
      if OptLt(t0, t1) then
        Interval(if Exceeds(t0, rt.min) then t0.value else rt.min,
                 if Undercuts(t1, rt.max) then t1.value else rt.max)
      else
        Interval(if Exceeds(t1, rt.min) then t1.value else rt.min,
                 if Undercuts(t0, rt.max) then t0.value else rt.max)
    }

    /** The slab test from `axis` onwards, with running interval `rt`. */
    predicate HitsFrom(ray: Ray, axis: nat, rt: Interval)
      requires axis <= 3
      decreases 3 - axis
    {
      if axis == 3 then true
      else
        var n := SlabStep(ray, axis, rt);
        if n.max.Le(n.min) then false else HitsFrom(ray, axis + 1, n)
    }

    /** Whether `ray` passes through the box for some parameter in `rayT`. */
    predicate Hits(ray: Ray, rayT: Interval) {
      HitsFrom(ray, 0, rayT)
    }

    /** `AABB::hit`: the loop over the three axes narrowing a local copy of `ray_t`. */
    method Hit(ray: Ray, rayT: Interval) returns (hit: bool)
      ensures hit == Hits(ray, rayT)
    {
      var rt := rayT;
      for axis := 0 to 3
        invariant HitsFrom(ray, axis, rt) == HitsFrom(ray, 0, rayT)
      {
        var ax := AxisInterval(axis);
        var invD := Recip(ray.direction.Axis(axis));
        var t0 := SlabT(ax.min, ray.origin.Axis(axis), invD);
        var t1 := SlabT(ax.max, ray.origin.Axis(axis), invD);
        if OptLt(t0, t1) {
          if Exceeds(t0, rt.min) {
            rt := rt.(min := t0.value);
          }
          if Undercuts(t1, rt.max) {
            rt := rt.(max := t1.value);
          }
        } else {
          if Exceeds(t1, rt.min) {
            rt := rt.(min := t1.value);
          }
          if Undercuts(t0, rt.max) {
            rt := rt.(max := t0.value);
          }
        }
        if rt.max.Le(rt.min) {
          return false;
        }
      }
      return true;
    }

    /** The point lies in the box on every axis. */
    predicate ContainsPoint(p: Vec3) {
      forall k :: k < 3 ==> AxisInterval(k).Contains(p.Axis(k))
    }

    /** The axis with the largest size; comparisons with a NaN size are false. */
    function LongestAxis(): (a: nat)
      ensures a < 3
      ensures SizesDefined() ==>
        forall k :: k < 3 ==> AxisSize(k).value.Le(AxisSize(a).value)
    {
      var xs := x.Size();
      var ys := y.Size();
      var zs := z.Size();
      if Greater(xs, ys) then
        if Greater(xs, zs) then 0 else 2
      else
        if Greater(ys, zs) then 1 else 2
    }

    function AxisSize(axis: nat): Option<ExtReal> {
      AxisInterval(axis).Size()
    }

    /** No axis has a NaN size (none is `[+inf, +inf]` or `[-inf, -inf]`). */
    predicate SizesDefined() {
      x.Size().Some? && y.Size().Some? && z.Size().Some?
    }
  }

  /** `1.0 / d`; a zero component is taken as `+0.0`, whose reciprocal is `+inf`. */
  function Recip(d: real): (r: ExtReal)
    ensures d != 0.0 ==> r == Fin(1.0 / d) && r.r != 0.0
    ensures d == 0.0 ==> r == PosInf
  {
    if d == 0.0 then PosInf else Fin(1.0 / d)
  }

  /** IEEE product of extended reals; `None` is the NaN of `0 * inf`. */
  function ExtMul(a: ExtReal, b: ExtReal): (p: Option<ExtReal>)
    ensures p.None? <==> (a == Fin(0.0) && !b.Fin?) || (b == Fin(0.0) && !a.Fin?)
    ensures a.Fin? && b.Fin? ==> p == Some(Fin(a.r * b.r))
    ensures a.Fin? && a.r != 0.0 && !b.Fin? ==> p == Some(InfWithSign((0.0 < a.r) == (b == PosInf)))
    ensures b.Fin? && b.r != 0.0 && !a.Fin? ==> p == Some(InfWithSign((0.0 < b.r) == (a == PosInf)))
    ensures !a.Fin? && !b.Fin? ==> p == Some(InfWithSign(a == b))
  {
    match (a, b)
    case (Fin(_), Fin(_)) => Some(Fin(a.r * b.r))
    case (Fin(u), _) => if u == 0.0 then None else Some(InfWithSign((0.0 < u) == (b == PosInf)))
    case (_, Fin(w)) => if w == 0.0 then None else Some(InfWithSign((0.0 < w) == (a == PosInf)))
    case (_, _) => Some(InfWithSign(a == b))
  }

  function InfWithSign(positive: bool): ExtReal {
    if positive then PosInf else NegInf
  }

  /** `(bound - origin) * inv_d`, one slab boundary's ray parameter. */
  function SlabT(bound: ExtReal, origin: real, invD: ExtReal): Option<ExtReal> {
    ExtMul(bound.Plus(-origin), invD)
  }

  /** `a < b`, false when either is NaN. */
  predicate OptLt(a: Option<ExtReal>, b: Option<ExtReal>) {
    a.Some? && b.Some? && a.value.Lt(b.value)
  }

  /** `t > bound`, false when `t` is NaN. */
  predicate Exceeds(t: Option<ExtReal>, bound: ExtReal) {
    t.Some? && bound.Lt(t.value)
  }

  /** `t < bound`, false when `t` is NaN. */
  predicate Undercuts(t: Option<ExtReal>, bound: ExtReal) {
    t.Some? && t.value.Lt(bound)
  }

  /** `a > b` on sizes, false when either is NaN. */
  predicate Greater(a: Option<ExtReal>, b: Option<ExtReal>) {
    OptLt(b, a)
  }

  /**
   * `pad_to_minimum` as written: each thin axis has `expand` computed on it, but
   * `expand` returns a new interval and the result is dropped, so the box comes
   * back unchanged.
   */
  function PadToMinimum(b: Aabb): (p: Aabb)
    ensures p == b
  {
    var _ := if ThinnerThan(b.x, PadDelta) then b.x.Expand(PadDelta) else b.x;
    var _ := if ThinnerThan(b.y, PadDelta) then b.y.Expand(PadDelta) else b.y;
    var _ := if ThinnerThan(b.z, PadDelta) then b.z.Expand(PadDelta) else b.z;
    b
  }

  /** `i.size() < delta`, false when the size is NaN. */
  predicate ThinnerThan(i: Interval, delta: real) {
    Undercuts(i.Size(), Fin(delta))
  }

  /** `AABB::new`: the three intervals, then `pad_to_minimum`. */
  function New(x: Interval, y: Interval, z: Interval): (b: Aabb)
    ensures b.x == x && b.y == y && b.z == z
  {
    PadToMinimum(Aabb(x, y, z))
  }

  function Empty(): (b: Aabb)
    ensures forall k :: k < 3 ==> b.AxisInterval(k) == Intervals.Empty()
  {
    Aabb(Intervals.Empty(), Intervals.Empty(), Intervals.Empty())
  }

  function Span(a: real, b: real): Interval {
    Interval(Fin(if a < b then a else b), Fin(if a < b then b else a))
  }

  /** The box with opposite corners `a` and `b`, in either order. */
  function FromPoints(a: Vec3, b: Vec3): (r: Aabb)
    ensures forall k :: k < 3 ==>
      var i := r.AxisInterval(k);
      i.min.Fin? && i.max.Fin? && i.min.r <= i.max.r &&
      i.Contains(a.Axis(k)) && i.Contains(b.Axis(k)) &&
      (i.min.r == a.Axis(k) || i.min.r == b.Axis(k)) &&
      (i.max.r == a.Axis(k) || i.max.r == b.Axis(k))
  {
    PadToMinimum(Aabb(Span(a.x, b.x), Span(a.y, b.y), Span(a.z, b.z)))
  }

  /** The per-axis enclosure of two boxes; nothing is padded here. */
  function FromBoxes(a: Aabb, b: Aabb): (r: Aabb)
    ensures forall k :: k < 3 ==>
      Encloses(r.AxisInterval(k), a.AxisInterval(k)) && Encloses(r.AxisInterval(k), b.AxisInterval(k))
    ensures forall k :: k < 3 ==>
      r.AxisInterval(k) == Enclosing(a.AxisInterval(k), b.AxisInterval(k))
  {
    Aabb(Enclosing(a.x, b.x), Enclosing(a.y, b.y), Enclosing(a.z, b.z))
  }

  /** Box `outer` encloses box `inner` on every axis. */
  predicate EnclosesBox(outer: Aabb, inner: Aabb) {
    Encloses(outer.x, inner.x) && Encloses(outer.y, inner.y) && Encloses(outer.z, inner.z)
  }

  lemma FromBoxesEmpty(b: Aabb)
    ensures FromBoxes(Empty(), b) == b
    ensures FromBoxes(b, Empty()) == b
  {
    EnclosingEmpty(b.x);
    EnclosingEmpty(b.y);
    EnclosingEmpty(b.z);
  }

  /** An input interval with `max <= min` is never hit: the running interval only narrows. */
  lemma EmptyRangeMisses(b: Aabb, ray: Ray, rayT: Interval)
    requires rayT.max.Le(rayT.min)
    ensures !b.Hits(ray, rayT)
  {
    var n := b.SlabStep(ray, 0, rayT);
    LtIsStrictOrder(n.max, rayT.max, rayT.min);
    LtIsStrictOrder(rayT.max, rayT.min, n.min);
    LtIsStrictOrder(n.max, rayT.min, n.min);
  }

  /**
   * A box that is flat on axis `k` (`min == max`) is never hit by a ray whose
   * direction has a non-zero component on that axis: both slab parameters agree,
   * and the running interval collapses.
   */
  lemma {:induction false} FlatAxisMisses(b: Aabb, ray: Ray, rayT: Interval, k: nat)
    requires k < 3
    requires b.AxisInterval(k).min == b.AxisInterval(k).max
    requires ray.direction.Axis(k) != 0.0
    ensures !b.Hits(ray, rayT)
  {
    FlatAxisMissesFrom(b, ray, 0, rayT, k);
  }

  lemma {:induction false} FlatAxisMissesFrom(b: Aabb, ray: Ray, axis: nat, rt: Interval, k: nat)
    requires axis <= k < 3
    requires b.AxisInterval(k).min == b.AxisInterval(k).max
    requires ray.direction.Axis(k) != 0.0
    ensures !b.HitsFrom(ray, axis, rt)
    decreases k - axis
  {
    var n := b.SlabStep(ray, axis, rt);
    if axis == k {
      var ax := b.AxisInterval(k);
      var invD := Recip(ray.direction.Axis(k));
      var t := SlabT(ax.min, ray.origin.Axis(k), invD);
      assert t.Some?;
      assert n.min.Le(t.value) ==> t.value.Le(n.min) ==> n.min == t.value;
      LtIsStrictOrder(n.max, t.value, n.min);
      LtIsStrictOrder(t.value, n.min, n.max);
    } else if !n.max.Le(n.min) {
      FlatAxisMissesFrom(b, ray, axis + 1, n, k);
    }
  }

  /**
   * Raising the upper end of `rayT` never turns a hit into a miss: each slab
   * step keeps the lower end and can only keep or raise the upper one.
   */
  lemma WiderRangeHits(b: Aabb, ray: Ray, rayT: Interval, upper: ExtReal)
    requires rayT.max.Le(upper) && b.Hits(ray, rayT)
    ensures b.Hits(ray, Interval(rayT.min, upper))
  {
    WiderRangeHitsFrom(b, ray, 0, rayT, Interval(rayT.min, upper));
  }

  lemma {:induction false} WiderRangeHitsFrom(b: Aabb, ray: Ray, axis: nat, rt: Interval, wide: Interval)
    requires axis <= 3
    requires wide.min == rt.min && rt.max.Le(wide.max)
    requires b.HitsFrom(ray, axis, rt)
    ensures b.HitsFrom(ray, axis, wide)
    decreases 3 - axis
  {
    if axis < 3 {
      var n := b.SlabStep(ray, axis, rt);
      var n' := b.SlabStep(ray, axis, wide);
      LtIsStrictOrder(n.max, rt.max, wide.max);
      var ax := b.AxisInterval(axis);
      var invD := Recip(ray.direction.Axis(axis));
      var t0 := SlabT(ax.min, ray.origin.Axis(axis), invD);
      var t1 := SlabT(ax.max, ray.origin.Axis(axis), invD);
      var far := if OptLt(t0, t1) then t1 else t0;
      if far.Some? {
        LtIsStrictOrder(far.value, rt.max, wide.max);
      }
      assert n'.min == n.min && n.max.Le(n'.max);
      LtIsStrictOrder(n.min, n.max, n'.max);
      WiderRangeHitsFrom(b, ray, axis + 1, n, n');
    }
  }
}
