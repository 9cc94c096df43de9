/**
 * Perlin noise, `src/perlin.rs`: random unit gradients on a lattice, hashed
 * through three permutation tables of `0 .. N-1`, blended with a cubic weight.
 * The random draws of the constructor are parameters: the vectors before
 * normalisation, and the swap target chosen at each step of the shuffle.
 */
module Noise {
  import opened Wrappers
  import opened Vectors
  import opened Bits

  /** `0, 1, ..., n - 1`, the table `perlin_generate_perm` starts from. */
  function Identity(n: nat): (s: seq<int>)
    ensures |s| == n && forall i :: 0 <= i < n ==> s[i] == i
  {
    seq(n, i => i)
  }

  /** `s` holds each of `0 .. |s| - 1` exactly once. */
  predicate IsRangePermutation(s: seq<int>) {
    multiset(s) == multiset(Identity(|s|))
  }

  /** `slice::swap(i, j)`. */
  function Swap(s: seq<int>, i: nat, j: nat): (r: seq<int>)
    requires i < |s| && j < |s|
    ensures |r| == |s| && r[i] == s[j] && r[j] == s[i]
    ensures forall k :: 0 <= k < |s| && k != i && k != j ==> r[k] == s[k]
  {
    seq(|s|, k requires 0 <= k < |s| => if k == i then s[j] else if k == j then s[i] else s[k])
  }

  /** A swap moves two entries and keeps the rest: the multiset of entries is unchanged. */
  lemma SwapPermutes(s: seq<int>, i: nat, j: nat)
    requires i < |s| && j < |s|
    ensures multiset(Swap(s, i, j)) == multiset(s)
  {
    assert Swap(s, i, j) == s[i := s[j]][j := s[i]];
  }

  /** Each swap target lies in `[0, i]`, as `random_int_range(0, i)` promises. */
  predicate ValidTargets(targets: seq<nat>) {
    forall i :: 0 <= i < |targets| ==> targets[i] <= i
  }

  /**
   * The swaps of `permute` still to be made when positions `0 .. i-1` remain:
   * position `i - 1` with `targets[i - 1]`, then downwards.
   */
  function Shuffle(s: seq<int>, targets: seq<nat>, i: nat): (r: seq<int>)
    requires i <= |s| == |targets| && ValidTargets(targets)
    ensures |r| == |s|
    decreases i
  {
    if i == 0 then s else Shuffle(Swap(s, i - 1, targets[i - 1]), targets, i - 1)
  }

  /** The shuffle only moves entries around: it is a permutation of its input. */
  lemma {:induction false} ShufflePermutes(s: seq<int>, targets: seq<nat>, i: nat)
    requires i <= |s| == |targets| && ValidTargets(targets)
    ensures multiset(Shuffle(s, targets, i)) == multiset(s)
    decreases i
  {
    if i > 0 {
      var t := Swap(s, i - 1, targets[i - 1]);
      var r := Shuffle(t, targets, i - 1);
      assert Shuffle(s, targets, i) == r;
      ShufflePermutes(t, targets, i - 1);
      SwapPermutes(s, i - 1, targets[i - 1]);
      SameMultiset(s, t, r);
    }
  }

  lemma SameMultiset(a: seq<int>, b: seq<int>, c: seq<int>)
    requires multiset(b) == multiset(a) && multiset(c) == multiset(b)
    ensures multiset(c) == multiset(a)
  {
  }

  /** `permute`: for `i` from `N - 1` down to 0, swap `perm[i]` with `perm[target]`. */
  method Permute(perm: array<int>, targets: seq<nat>)
    requires |targets| == perm.Length && ValidTargets(targets)
    modifies perm
    ensures perm[..] == Shuffle(old(perm[..]), targets, perm.Length)
    ensures multiset(perm[..]) == multiset(old(perm[..]))
  {
    ghost var shuffled := Shuffle(perm[..], targets, perm.Length);
    var i := perm.Length;
    while i > 0
      invariant 0 <= i <= perm.Length
      invariant Shuffle(perm[..], targets, i) == shuffled
    {
      var target := targets[i - 1];
      ghost var before := perm[..];
      SwapEntries(perm, i - 1, target);
      ShuffleStep(before, targets, i, perm[..]);
      i := i - 1;
    }
    ShufflePermutes(old(perm[..]), targets, perm.Length);
  }

  /** One swap of the shuffle taken off the front. */
  lemma ShuffleStep(s: seq<int>, targets: seq<nat>, i: nat, swapped: seq<int>)
    requires 1 <= i <= |s| == |targets| && ValidTargets(targets)
    requires swapped == Swap(s, i - 1, targets[i - 1])
    ensures Shuffle(s, targets, i) == Shuffle(swapped, targets, i - 1)
  {
  }

  /** `perm.swap(i, j)` on the array. */
  method SwapEntries(perm: array<int>, i: nat, j: nat)
    requires i < perm.Length && j < perm.Length
    modifies perm
    ensures perm[..] == Swap(old(perm[..]), i, j)
  {
    var moved := perm[i];
    perm[i] := perm[j];
    perm[j] := moved;
  }

  /** `perlin_generate_perm`: the identity table, then shuffled. */
  method GeneratePerm(perm: array<int>, targets: seq<nat>)
    requires |targets| == perm.Length && ValidTargets(targets)
    modifies perm
    ensures perm[..] == Shuffle(Identity(perm.Length), targets, perm.Length)
    ensures IsRangePermutation(perm[..])
  {
    for i := 0 to perm.Length
      invariant forall j :: 0 <= j < i ==> perm[j] == j
    {
      perm[i] := i;
    }
    assert perm[..] == Identity(perm.Length);
    Permute(perm, targets);
  }

  /** Every entry of a permutation of `0 .. n-1` lies in `[0, n)`. */
  lemma RangePermutationBounds(s: seq<int>)
    requires IsRangePermutation(s)
    ensures forall i :: 0 <= i < |s| ==> 0 <= s[i] < |s|
  {
    forall i | 0 <= i < |s|
      ensures 0 <= s[i] < |s|
    {
      assert s[i] in multiset(s);
      assert s[i] in multiset(Identity(|s|));
      assert s[i] in Identity(|s|);
    }
  }

  /** The cubic `u^2 (3 - 2u)` that smooths the blend. */
  function Smooth(u: real): real {
    u * u * (3.0 - 2.0 * u)
  }

  /** `i * uu + (1 - i) * (1 - uu)`: the weight of lattice side `i` along one axis. */
  function Weight(i: int, uu: real): real {
    i as real * uu + (1 - i) as real * (1.0 - uu)
  }

  /** A 2 x 2 x 2 array of gradients, `[[[Vec3; 2]; 2]; 2]`. */
  predicate IsCube(c: seq<seq<seq<Vec3>>>) {
    |c| == 2 && forall a :: 0 <= a < 2 ==> |c[a]| == 2 && forall b :: 0 <= b < 2 ==> |c[a][b]| == 2
  }

  /** The contribution of corner `(i, j, k)` to `perlin_interp`. */
  function Term(c: seq<seq<seq<Vec3>>>, u: real, v: real, w: real, i: nat, j: nat, k: nat): real
    requires IsCube(c) && i < 2 && j < 2 && k < 2
  {
    var weightV := Vec3(u - i as real, v - j as real, w - k as real);
    Weight(i, Smooth(u)) * Weight(j, Smooth(v)) * Weight(k, Smooth(w)) * c[i][j][k].Dot(weightV)
  }

  /** The terms for `k < n` at fixed `i`, `j`. */
  function SumK(c: seq<seq<seq<Vec3>>>, u: real, v: real, w: real, i: nat, j: nat, n: nat): real
    requires IsCube(c) && i < 2 && j < 2 && n <= 2
  {
    if n == 0 then 0.0 else SumK(c, u, v, w, i, j, n - 1) + Term(c, u, v, w, i, j, n - 1)
  }

  /** The terms for `j < n` at fixed `i`. */
  function SumJ(c: seq<seq<seq<Vec3>>>, u: real, v: real, w: real, i: nat, n: nat): real
    requires IsCube(c) && i < 2 && n <= 2
  {
    if n == 0 then 0.0 else SumJ(c, u, v, w, i, n - 1) + SumK(c, u, v, w, i, n - 1, |c[i][n - 1]|)
  }

  /** The terms for `i < n`. */
  function SumI(c: seq<seq<seq<Vec3>>>, u: real, v: real, w: real, n: nat): real
    requires IsCube(c) && n <= 2
  {
    if n == 0 then 0.0 else SumI(c, u, v, w, n - 1) + SumJ(c, u, v, w, n - 1, |c[n - 1]|)
  }

  /** `perlin_interp`: the sum of all eight corner terms. */
  function InterpSum(c: seq<seq<seq<Vec3>>>, u: real, v: real, w: real): real
    requires IsCube(c)
  {
    SumI(c, u, v, w, |c|)
  }

  /** `perlin_interp`, the triple loop accumulating the corner terms. */
  method Interp(c: seq<seq<seq<Vec3>>>, u: real, v: real, w: real) returns (accum: real)
    requires IsCube(c)
    ensures accum == InterpSum(c, u, v, w)
  {
    accum := 0.0;
    for i := 0 to 2
      invariant accum == SumI(c, u, v, w, i)
    {
      for j := 0 to 2
        invariant accum == SumI(c, u, v, w, i) + SumJ(c, u, v, w, i, j)
      {
        for k := 0 to 2
          invariant accum == SumI(c, u, v, w, i) + SumJ(c, u, v, w, i, j) + SumK(c, u, v, w, i, j, k)
        {
          accum := accum + Term(c, u, v, w, i, j, k);
        }
      }
    }
  }

  /**
   * At a corner of the unit cell the blend is zero: only that corner has a
   * non-zero weight, and its offset vector is zero.
   */
  lemma InterpVanishesAtCorners(c: seq<seq<seq<Vec3>>>, u: real, v: real, w: real)
    requires IsCube(c)
    requires (u == 0.0 || u == 1.0) && (v == 0.0 || v == 1.0) && (w == 0.0 || w == 1.0)
    ensures InterpSum(c, u, v, w) == 0.0
  {
    forall i: nat, j: nat | i < 2 && j < 2
      ensures SumK(c, u, v, w, i, j, 2) == 0.0
    {
      CornerTermVanishes(c, u, v, w, i, j, 0);
      CornerTermVanishes(c, u, v, w, i, j, 1);
      assert SumK(c, u, v, w, i, j, 1) == SumK(c, u, v, w, i, j, 0) + Term(c, u, v, w, i, j, 0);
    }
    forall i: nat | i < 2
      ensures SumJ(c, u, v, w, i, 2) == 0.0
    {
      assert SumJ(c, u, v, w, i, 1) == SumK(c, u, v, w, i, 0, 2);
    }
    assert SumI(c, u, v, w, 1) == SumJ(c, u, v, w, 0, 2);
  }

  lemma CornerTermVanishes(c: seq<seq<seq<Vec3>>>, u: real, v: real, w: real, i: nat, j: nat, k: nat)
    requires IsCube(c) && i < 2 && j < 2 && k < 2
    requires (u == 0.0 || u == 1.0) && (v == 0.0 || v == 1.0) && (w == 0.0 || w == 1.0)
    ensures Term(c, u, v, w, i, j, k) == 0.0
  {
    assert Smooth(u) == u && Smooth(v) == v && Smooth(w) == w;
    var wi, wj, wk := Weight(i, Smooth(u)), Weight(j, Smooth(v)), Weight(k, Smooth(w));
    var dot := c[i][j][k].Dot(Vec3(u - i as real, v - j as real, w - k as real));
    assert Term(c, u, v, w, i, j, k) == wi * wj * wk * dot;
    if u == i as real && v == j as real && w == k as real {
      assert dot == 0.0;
    } else if u != i as real {
      assert wi == 0.0;
    } else if v != j as real {
      assert wj == 0.0;
    } else {
      assert wk == 0.0;
    }
  }

  /** `(i + d) & (N as i32 - 1)` on the wrapped `i32` sum `x = i + d`, then `as usize`. */
  function LatticeIndex(x: int, n: nat): nat {
    BitAnd(Pattern32(x), Pattern32(n - 1))
  }

  /** With at least one entry the masked index is in bounds. */
  lemma LatticeIndexInBounds(x: int, n: nat)
    requires 1 <= n <= I32Max
    ensures LatticeIndex(x, n) < n
  {
    Pow2Of32();
  }

  /** For `N = 2^k` the mask is the Euclidean remainder: the lattice wraps with period `N`. */
  lemma LatticeIndexIsRemainder(x: int, k: nat)
    requires k <= 30
    ensures LatticeIndex(x, Pow2(k)) == x % Pow2(k)
  {
    var m := Pow2(k);
    MaskPattern(k);
    assert LatticeIndex(x, m) == BitAnd(Pattern32(x), m - 1);
    AndLowMask(Pattern32(x), k);
    PatternRemainder(x, k);
  }

  /** The mask `2^k - 1`, `k <= 30`, is its own 32-bit pattern. */
  lemma MaskPattern(k: nat)
    requires k <= 30
    ensures Pattern32(Pow2(k) - 1) == Pow2(k) - 1
  {
    Pow2Increasing(k, 32);
    SmallRemainder(Pow2(k) - 1, Pow2(32));
  }

  lemma SmallRemainder(a: int, m: int)
    requires 0 <= a < m
    ensures a % m == a
  {
  }

  lemma Pow2Of32()
    ensures Pow2(32) == 0x1_0000_0000
  {
    assert Pow2(4) == 16;
    PowAdd(4, 4);
    PowAdd(8, 8);
    PowAdd(16, 16);
  }

  /** `perm[(x) & (N - 1)]` for a table holding `0 .. N-1`. */
  function Lookup(perm: seq<int>, x: int): (e: nat)
    requires IsRangePermutation(perm) && 1 <= |perm| <= I32Max
    ensures e < |perm|
  {
    LatticeIndexInBounds(x, |perm|);
    RangePermutationBounds(perm);
    perm[LatticeIndex(x, |perm|)]
  }

  /** `draws[i].unit_vector()` for every entry. */
  method UnitVectors(draws: seq<Vec3>, sqrt: SqrtFn) returns (rv: array<Vec3>)
    ensures fresh(rv) && rv.Length == |draws|
    ensures forall i :: 0 <= i < |draws| ==> rv[i] == draws[i].UnitVector(sqrt)
  {
    rv := new Vec3[|draws|](_ => Zero());
    for i := 0 to |draws|
      invariant forall j :: 0 <= j < i ==> rv[j] == draws[j].UnitVector(sqrt)
    {
      rv[i] := draws[i].UnitVector(sqrt);
    }
  }

  /** A fresh table filled by `perlin_generate_perm`. */
  method NewPermTable(targets: seq<nat>) returns (perm: array<int>)
    requires ValidTargets(targets)
    ensures fresh(perm) && perm.Length == |targets|
    ensures perm[..] == Shuffle(Identity(|targets|), targets, |targets|)
    ensures IsRangePermutation(perm[..])
  {
    perm := new int[|targets|];
    GeneratePerm(perm, targets);
  }

  /**
   * `Perlin::new`: `draws[i]` is the vector `random_range(-1, 1)` drew for
   * entry `i`, and `targetsX[i]` the swap target drawn at step `i` for `perm_x`.
   */
  method New(n: nat, draws: seq<Vec3>, targetsX: seq<nat>, targetsY: seq<nat>, targetsZ: seq<nat>, sqrt: SqrtFn)
    returns (perlin: Perlin)
    requires n <= I32Max && |draws| == n
    requires |targetsX| == n && |targetsY| == n && |targetsZ| == n
    requires ValidTargets(targetsX) && ValidTargets(targetsY) && ValidTargets(targetsZ)
    ensures perlin.Valid() && perlin.n == n
    ensures forall i :: 0 <= i < n ==> perlin.randvec[i] == draws[i].UnitVector(sqrt)
    ensures perlin.permX == Shuffle(Identity(n), targetsX, n)
    ensures perlin.permY == Shuffle(Identity(n), targetsY, n)
    ensures perlin.permZ == Shuffle(Identity(n), targetsZ, n)
    ensures IsRangePermutation(perlin.permX) && IsRangePermutation(perlin.permY) && IsRangePermutation(perlin.permZ)
  {
    var rv := UnitVectors(draws, sqrt);
    var px := NewPermTable(targetsX);
    var py := NewPermTable(targetsY);
    var pz := NewPermTable(targetsZ);
    perlin := Perlin(n, rv[..], px[..], py[..], pz[..]);
  }

  /**
   * The gradient table and the three permutation tables of `Perlin<N>`, `n`
   * being `N`.  The tables are fixed-size arrays, never changed after `new`.
   */
  datatype Perlin = Perlin(n: nat, randvec: seq<Vec3>, permX: seq<int>, permY: seq<int>, permZ: seq<int>) {

    /** The tables have `N` entries and each permutation table holds `0 .. N-1`. */
    predicate Valid() {
      n <= I32Max &&
      |randvec| == n && |permX| == n && |permY| == n && |permZ| == n &&
      IsRangePermutation(permX) && IsRangePermutation(permY) && IsRangePermutation(permZ)
    }

    /**
     * The gradient index of lattice point `(x, y, z)`: the XOR of the three
     * table entries, or `None` where `randvec[...]` would be out of bounds.
     */
    function Hash(x: int, y: int, z: int): (h: Option<nat>)
      requires Valid()
      ensures h.Some? ==> h.value < n
    {
      if n == 0 then None
      else
        var h := BitXor(BitXor(Lookup(permX, x), Lookup(permY, y)), Lookup(permZ, z));
        if h < n then Some(h) else None
    }

    /** For `N` a power of two the XOR of three entries stays below `N`: no lookup fails. */
    lemma HashDefined(k: nat)
      requires Valid() && n == Pow2(k) && 1 <= n
      ensures forall x, y, z :: Hash(x, y, z).Some?
    {
      forall x, y, z
        ensures Hash(x, y, z).Some?
      {
        var a := Lookup(permX, x);
        var b := Lookup(permY, y);
        var c := Lookup(permZ, z);
        XorBelow(a, b, k);
        XorBelow(BitXor(a, b), c, k);
      }
    }

    /** Corner `(a, b, e)` of cell `(i, j, k)` has an in-bounds gradient index. */
    predicate CornerDefined(i: int, j: int, k: int, a: nat, b: nat, e: nat)
      requires Valid()
    {
      Hash(i + a, j + b, k + e).Some?
    }

    /** The eight lattice hashes around cell `(i, j, k)` all stay in bounds. */
    predicate CornersDefined(i: int, j: int, k: int)
      requires Valid()
    {
      forall a: nat, b: nat, e: nat :: a < 2 && b < 2 && e < 2 ==> CornerDefined(i, j, k, a, b, e)
    }

    /** The gradient of corner `(a, b, e)`; `Zero()` stands in where the lookup would fail. */
    function Corner(i: int, j: int, k: int, a: nat, b: nat, e: nat): (g: Vec3)
      requires Valid()
      ensures CornerDefined(i, j, k, a, b, e) ==> g == randvec[Hash(i + a, j + b, k + e).value]
    {
      var h := Hash(i + a, j + b, k + e);
      if h.Some? then randvec[h.value] else Zero()
    }

    /** The gradients at the eight corners of cell `(i, j, k)`, indexed `[a][b][e]`. */
    function Corners(i: int, j: int, k: int): (c: seq<seq<seq<Vec3>>>)
      requires Valid()
      ensures IsCube(c)
      ensures forall a: nat, b: nat, e: nat :: a < 2 && b < 2 && e < 2 ==> c[a][b][e] == Corner(i, j, k, a, b, e)
    {
      seq(2, a requires 0 <= a => seq(2, b requires 0 <= b => seq(2, e requires 0 <= e => Corner(i, j, k, a, b, e))))
    }

    /** What `noise(p)` computes; `Panics` where a gradient lookup is out of bounds. */
    function NoiseValue(p: Vec3): Fallible<real>
      requires Valid()
    {
      var i, j, k := SaturateI32(p.x.Floor), SaturateI32(p.y.Floor), SaturateI32(p.z.Floor);
      if !CornersDefined(i, j, k) then Panics
      else
        var u, v, w := p.x - p.x.Floor as real, p.y - p.y.Floor as real, p.z - p.z.Floor as real;
        Returns(InterpSum(Corners(i, j, k), u, v, w))
    }

    /**
     * The triple loop of `noise` filling the local array `c` with the corner
     * gradients; `None` where a lookup would be out of bounds.
     */
    method GatherCorners(i: int, j: int, k: int) returns (r: Option<seq<seq<seq<Vec3>>>>)
      requires Valid()
      ensures r.Some? <==> CornersDefined(i, j, k)
      ensures r.Some? ==> r.value == Corners(i, j, k)
    {
      ghost var cs := Corners(i, j, k);
      var c: seq<seq<seq<Vec3>>> := [[[Zero(), Zero()], [Zero(), Zero()]], [[Zero(), Zero()], [Zero(), Zero()]]];
      for di := 0 to 2
        invariant IsCube(c)
        invariant forall a :: 0 <= a < di ==> c[a] == cs[a]
        invariant forall a: nat, b: nat, e: nat :: a < di && b < 2 && e < 2 ==> CornerDefined(i, j, k, a, b, e)
      {
        var face := GatherFace(i, j, k, di);
        if face.None? {
          return None;
        }
        c := c[di := face.value];
      }
      assert c == cs;
      return Some(c);
    }

    /** The `dj` loop of `noise` for one value of `di`. */
    method GatherFace(i: int, j: int, k: int, di: nat) returns (r: Option<seq<seq<Vec3>>>)
      requires Valid() && di < 2
      ensures r.Some? <==> forall b: nat, e: nat :: b < 2 && e < 2 ==> CornerDefined(i, j, k, di, b, e)
      ensures r.Some? ==> r.value == Corners(i, j, k)[di]
    {
      ghost var cs := Corners(i, j, k)[di];
      var c: seq<seq<Vec3>> := [[Zero(), Zero()], [Zero(), Zero()]];
      for dj := 0 to 2
        invariant |c| == 2
        invariant forall b :: 0 <= b < dj ==> c[b] == cs[b]
        invariant forall b: nat, e: nat :: b < dj && e < 2 ==> CornerDefined(i, j, k, di, b, e)
      {
        var edge := GatherEdge(i, j, k, di, dj);
        if edge.None? {
          return None;
        }
        c := c[dj := edge.value];
      }
      assert c == cs;
      return Some(c);
    }

    /** The innermost `dk` loop of `noise`: hash each corner and fetch its gradient. */
    method GatherEdge(i: int, j: int, k: int, di: nat, dj: nat) returns (r: Option<seq<Vec3>>)
      requires Valid() && di < 2 && dj < 2
      ensures r.Some? <==> forall e: nat :: e < 2 ==> CornerDefined(i, j, k, di, dj, e)
      ensures r.Some? ==> r.value == Corners(i, j, k)[di][dj]
    {
      ghost var cs := Corners(i, j, k)[di][dj];
      var c: seq<Vec3> := [Zero(), Zero()];
      for dk := 0 to 2
        invariant |c| == 2
        invariant forall e :: 0 <= e < dk ==> c[e] == cs[e]
        invariant forall e: nat :: e < dk ==> CornerDefined(i, j, k, di, dj, e)
      {
        var h := Hash(i + di, j + dj, k + dk);
        if h.None? {
          assert !CornerDefined(i, j, k, di, dj, dk);
          return None;
        }
        c := c[dk := randvec[h.value]];
      }
      assert c == cs;
      return Some(c);
    }

    /** `noise`: the fractional offsets in the cell, the corner gradients, then `perlin_interp`. */
    method Noise(p: Vec3) returns (r: Fallible<real>)
      requires Valid()
      ensures r == NoiseValue(p)
    {
      var u := p.x - p.x.Floor as real;
      var v := p.y - p.y.Floor as real;
      var w := p.z - p.z.Floor as real;
      var i := SaturateI32(p.x.Floor);
      var j := SaturateI32(p.y.Floor);
      var k := SaturateI32(p.z.Floor);
      var c := GatherCorners(i, j, k);
      if c.None? {
        return Panics;
      }
      var value := Interp(c.value, u, v, w);
      return Returns(value);
    }

    /** `noise` as a function value: the noise function `turb` samples. */
    function NoiseFn(): (f: Vec3 -> Fallible<real>)
      ensures Valid() ==> forall q :: f(q) == NoiseValue(q)
    {
      q => if Valid() then NoiseValue(q) else Panics
    }

    /** `turb` on this table's noise. */
    method Turb(p: Vec3, depth: nat) returns (r: Fallible<real>)
      requires Valid()
      ensures r == TurbValue(NoiseFn(), p, depth)
      ensures r.Returns? ==> 0.0 <= r.value
    {
      r := Turbulence(NoiseFn(), p, depth);
    }

    /** Noise is zero at every lattice point, where the cell offsets are all zero. */
    lemma NoiseVanishesAtLattice(p: Vec3)
      requires Valid()
      requires p.x == p.x.Floor as real && p.y == p.y.Floor as real && p.z == p.z.Floor as real
      ensures NoiseValue(p).Returns? ==> NoiseValue(p).value == 0.0
    {
      var i, j, k := SaturateI32(p.x.Floor), SaturateI32(p.y.Floor), SaturateI32(p.z.Floor);
      if CornersDefined(i, j, k) {
        InterpVanishesAtCorners(Corners(i, j, k), 0.0, 0.0, 0.0);
      }
    }

    /** With `N` a power of two, `noise` never panics. */
    lemma NoiseDefined(k: nat, p: Vec3)
      requires Valid() && n == Pow2(k) && 1 <= n
      ensures NoiseValue(p).Returns?
    {
      CornersDefinedForPow2(k, SaturateI32(p.x.Floor), SaturateI32(p.y.Floor), SaturateI32(p.z.Floor));
    }

    lemma CornersDefinedForPow2(k: nat, i: int, j: int, l: int)
      requires Valid() && n == Pow2(k) && 1 <= n
      ensures CornersDefined(i, j, l)
    {
      HashDefined(k);
    }
  }

  /** The contribution `weight * noise` of one octave of `turb`. */
  function Octave(weight: real, noise: real): real {
    weight * noise
  }

  /** `accum` added to a sum that may have panicked. */
  function AddTo(accum: real, rest: Fallible<real>): (r: Fallible<real>)
    ensures r.Panics? <==> rest.Panics?
    ensures rest.Returns? ==> r.value == accum + rest.value
  {
    match rest
    case Panics => Panics
    case Returns(x) => Returns(accum + x)
  }

  lemma AddToZero(rest: Fallible<real>)
    ensures AddTo(0.0, rest) == rest
  {
  }

  lemma AddToAssociates(a: real, b: real, rest: Fallible<real>)
    ensures AddTo(a, AddTo(b, rest)) == AddTo(a + b, rest)
  {
  }

  /**
   * The octaves of `turb` from point `q` on: `count` of them, the first at
   * weight `weight`, each next one at twice the frequency and half the weight.
   */
  function TurbSum(noise: Vec3 -> Fallible<real>, q: Vec3, count: nat, weight: real): Fallible<real>
    decreases count
  {
    if count == 0 then Returns(0.0)
    else
      match noise(q)
      case Panics => Panics
      case Returns(n) =>
        match TurbSum(noise, q.Scale(2.0), count - 1, weight * 0.5)
        case Panics => Panics
        case Returns(rest) => Returns(Octave(weight, n) + rest)
  }

  /** What `turb` returns: the absolute value of the sum of `depth` octaves from weight 1. */
  function TurbValue(noise: Vec3 -> Fallible<real>, p: Vec3, depth: nat): (r: Fallible<real>)
    ensures r.Panics? <==> TurbSum(noise, p, depth, 1.0).Panics?
    ensures r.Returns? ==> 0.0 <= r.value && (r.value == TurbSum(noise, p, depth, 1.0).value || r.value == -TurbSum(noise, p, depth, 1.0).value)
  {
    match TurbSum(noise, p, depth, 1.0)
    case Panics => Panics
    case Returns(sum) => Returns(Abs(sum))
  }

  /**
   * The loop of `turb`: `depth` times, add `weight * noise(temp_p)` to the
   * accumulator, halve the weight and double the point; then the absolute value.
   * A panic of `noise` ends the loop.
   */
  method Turbulence(noise: Vec3 -> Fallible<real>, p: Vec3, depth: nat) returns (r: Fallible<real>)
    ensures r == TurbValue(noise, p, depth)
  {
    var accum := 0.0;
    var tempP := p;
    var weight := 1.0;
    var remaining := depth;
    ghost var total := TurbSum(noise, p, depth, 1.0);
    AddToZero(total);
    while remaining > 0
      invariant total == AddTo(accum, TurbSum(noise, tempP, remaining, weight))
    {
      var sample := noise(tempP);
      if sample.Panics? {
        return Panics;
      }
      TurbAdvance(noise, total, accum, tempP, remaining, weight);
      accum := accum + Octave(weight, sample.value);
      weight := weight * 0.5;
      tempP := tempP.Scale(2.0);
      remaining := remaining - 1;
    }
    return Returns(Abs(accum));
  }

  /** The loop invariant of `turb` carried across one octave. */
  lemma TurbAdvance(noise: Vec3 -> Fallible<real>, total: Fallible<real>, accum: real, q: Vec3, remaining: nat, weight: real)
    requires 1 <= remaining && noise(q).Returns?
    requires total == AddTo(accum, TurbSum(noise, q, remaining, weight))
    ensures total ==
      AddTo(accum + Octave(weight, noise(q).value), TurbSum(noise, q.Scale(2.0), remaining - 1, weight * 0.5))
  {
    AddToAssociates(accum, Octave(weight, noise(q).value), TurbSum(noise, q.Scale(2.0), remaining - 1, weight * 0.5));
  }

  /** With no octaves `turb` is zero; with one it is `|noise(p)|`. */
  lemma TurbFewOctaves(noise: Vec3 -> Fallible<real>, p: Vec3)
    ensures TurbValue(noise, p, 0) == Returns(0.0)
    ensures noise(p).Panics? ==> TurbValue(noise, p, 1).Panics?
    ensures noise(p).Returns? ==> TurbValue(noise, p, 1) == Returns(Abs(noise(p).value))
  {
    assert TurbSum(noise, p.Scale(2.0), 0, 0.5) == Returns(0.0);
  }

  /**
   * Where every sample lies in `[-1, 1]`, the octaves from weight `weight`
   * sum to at most `2 weight` in absolute value: `turb` of such noise is below 2.
   */
  lemma {:induction false} TurbBounded(noise: Vec3 -> Fallible<real>, q: Vec3, count: nat, weight: real)
    requires 0.0 <= weight
    requires forall x :: noise(x).Returns? && Abs(noise(x).value) <= 1.0
    ensures TurbSum(noise, q, count, weight).Returns?
    ensures Abs(TurbSum(noise, q, count, weight).value) <= 2.0 * weight
    decreases count
  {
    if count > 0 {
      TurbBounded(noise, q.Scale(2.0), count - 1, weight * 0.5);
      var n := noise(q).value;
      var rest := TurbSum(noise, q.Scale(2.0), count - 1, weight * 0.5).value;
      assert TurbSum(noise, q, count, weight) == Returns(Octave(weight, n) + rest);
      OctaveBounded(weight, n);
    }
  }

  lemma OctaveBounded(weight: real, n: real)
    requires 0.0 <= weight && Abs(n) <= 1.0
    ensures Abs(Octave(weight, n)) <= weight
  {
    if n < 0.0 {
      assert Octave(weight, n) == -(weight * -n);
    }
  }
}
