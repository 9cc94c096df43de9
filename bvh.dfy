/**
 * Construction of the bounding volume hierarchy, `src/bvh.rs`: `BVHNode::new`
 * boxes a sub-range of the object vector, sorts that sub-range in place along
 * the box's longest axis and recurses on its two halves.  The node's `hit` is
 * `Hittables.Hit` on a `BvhObject`.
 */
module Bvh {
  import opened ExtReals
  import opened Intervals
  import opened Boxes
  import opened Hittables

  datatype Ordering = Less | Equal | Greater

  /** The sort key: the lower end of an object's box on `axis`. */
  function Key(h: Hittable, axis: nat): ExtReal {
    h.BoundingBox().AxisInterval(axis).min
  }

  /** `box_compare`: orders two objects by the lower end of their boxes on `axis`. */
  function BoxCompare(a: Hittable, b: Hittable, axis: nat): (c: Ordering)
    ensures c == Less <==> Key(a, axis).Lt(Key(b, axis))
    ensures c == Equal <==> Key(a, axis) == Key(b, axis)
    ensures c == Greater <==> Key(b, axis).Lt(Key(a, axis))
  {
    LtIsStrictOrder(Key(a, axis), Key(b, axis), Key(a, axis));
    if Key(a, axis).Lt(Key(b, axis)) then Less
    else if Key(a, axis) == Key(b, axis) then Equal
    else Greater
  }

  /** The closure handed to `sort_by`: axis 0 compares x, axis 1 y, any other z. */
  function ComparatorAxis(axis: nat): (k: nat)
    ensures k < 3
    ensures axis < 3 ==> k == axis
  {
    if axis == 0 then 0 else if axis == 1 then 1 else 2
  }

  /** Non-decreasing keys along `s`. */
  predicate SortedByKey(s: seq<Hittable>, axis: nat) {
    forall p, q :: 0 <= p < q < |s| ==> Key(s[p], axis).Le(Key(s[q], axis))
  }

  /** The running union of the boxes of `s`, starting from the empty box. */
  function UnionOfBoxes(s: seq<Hittable>): (b: Aabb)
    ensures forall j :: 0 <= j < |s| ==> EnclosesBox(b, s[j].BoundingBox())
  {
    if s == [] then Boxes.Empty()
    else
      var prefix := UnionOfBoxes(s[..|s| - 1]);
      var b := FromBoxes(prefix, s[|s| - 1].BoundingBox());
      assert EnclosesBox(b, prefix) by {
        assert b.AxisInterval(0) == b.x && b.AxisInterval(1) == b.y && b.AxisInterval(2) == b.z;
      }
      forall j | 0 <= j < |s| - 1
        ensures EnclosesBox(b, s[j].BoundingBox())
      {
        assert s[j] == s[..|s| - 1][j];
        EnclosesBoxTransitive(b, prefix, s[j].BoundingBox());
      }
      b
  }

  lemma EnclosesBoxTransitive(a: Aabb, b: Aabb, c: Aabb)
    requires EnclosesBox(a, b) && EnclosesBox(b, c)
    ensures EnclosesBox(a, c)
  {
    LtIsStrictOrder(a.x.min, b.x.min, c.x.min);
    LtIsStrictOrder(c.x.max, b.x.max, a.x.max);
    LtIsStrictOrder(a.y.min, b.y.min, c.y.min);
    LtIsStrictOrder(c.y.max, b.y.max, a.y.max);
    LtIsStrictOrder(a.z.min, b.z.min, c.z.min);
    LtIsStrictOrder(c.z.max, b.z.max, a.z.max);
  }

  /** The keys of `a[lo..hi]` do not decrease. */
  predicate SortedBetween(a: seq<Hittable>, lo: nat, hi: nat, axis: nat)
    requires lo <= hi <= |a|
  {
    forall p, q :: lo <= p < q < hi ==> Key(a[p], axis).Le(Key(a[q], axis))
  }

  /**
   * `objects[lo..hi].sort_by(...)`, as a stable insertion sort: afterwards the
   * range is ordered by `Key` and is a permutation of what it held; nothing
   * outside it moves.
   */
  method SortRange(a: array<Hittable>, lo: nat, hi: nat, axis: nat)
    requires lo <= hi <= a.Length
    modifies a
    ensures SortedByKey(a[lo..hi], axis)
    ensures multiset(a[lo..hi]) == multiset(old(a[lo..hi]))
    ensures a[..lo] == old(a[..lo]) && a[hi..] == old(a[hi..])
  {
    for i := lo to hi
      invariant SortedBetween(a[..], lo, i, axis)
      invariant multiset(a[lo..hi]) == multiset(old(a[lo..hi]))
      invariant a[..lo] == old(a[..lo]) && a[hi..] == old(a[hi..])
    {
      InsertLast(a, lo, i, hi, axis);
    }
    assert forall p, q :: 0 <= p < q < hi - lo ==> a[lo..hi][p] == a[lo + p] && a[lo..hi][q] == a[lo + q];
  }

  /** Sink `a[i]` into the sorted `a[lo..i]`, swapping it past every strictly greater key. */
  method InsertLast(a: array<Hittable>, lo: nat, i: nat, hi: nat, axis: nat)
    requires lo <= i < hi <= a.Length
    requires SortedBetween(a[..], lo, i, axis)
    modifies a
    ensures SortedBetween(a[..], lo, i + 1, axis)
    ensures multiset(a[lo..hi]) == multiset(old(a[lo..hi]))
    ensures a[..lo] == old(a[..lo]) && a[hi..] == old(a[hi..])
  {
    var j := i;
    while lo < j && BoxCompare(a[j], a[j - 1], axis) == Less
      invariant lo <= j <= i
      invariant Sinking(a[..], lo, j, i, axis)
      invariant multiset(a[lo..hi]) == multiset(old(a[lo..hi]))
      invariant a[..lo] == old(a[..lo]) && a[hi..] == old(a[hi..])
    {
      ghost var before := a[..];
      SwapAdjacent(a, lo, hi, j);
      SinkStep(before, lo, j, i, axis);
      j := j - 1;
    }
    SinkDone(a[..], lo, j, i, axis);
  }

  /**
   * Midway through sinking `a[i]`: apart from the sinking object at `j`,
   * `a[lo..i+1]` is ordered, and the sinking object is below everything after it.
   */
  predicate Sinking(a: seq<Hittable>, lo: nat, j: nat, i: nat, axis: nat)
    requires lo <= j <= i < |a|
  {
    (forall p, q :: lo <= p < q <= i && q != j ==> Key(a[p], axis).Le(Key(a[q], axis))) &&
    (forall q :: j < q <= i ==> Key(a[j], axis).Lt(Key(a[q], axis)))
  }

  /** Swapping the sinking object past a strictly greater neighbour keeps it sinking. */
  lemma SinkStep(a: seq<Hittable>, lo: nat, j: nat, i: nat, axis: nat)
    requires lo < j <= i < |a|
    requires Sinking(a, lo, j, i, axis)
    requires Key(a[j], axis).Lt(Key(a[j - 1], axis))
    ensures Sinking(a[j - 1 := a[j]][j := a[j - 1]], lo, j - 1, i, axis)
  {
    var b := a[j - 1 := a[j]][j := a[j - 1]];
    forall q | j - 1 < q <= i
      ensures Key(b[j - 1], axis).Lt(Key(b[q], axis))
    {
      if q != j {
        assert b[q] == a[q];
      }
    }
  }

  /** Once the sinking object meets a key no greater than its own, the prefix is sorted. */
  lemma SinkDone(a: seq<Hittable>, lo: nat, j: nat, i: nat, axis: nat)
    requires lo <= j <= i < |a|
    requires Sinking(a, lo, j, i, axis)
    requires lo < j ==> BoxCompare(a[j], a[j - 1], axis) != Less
    ensures SortedBetween(a, lo, i + 1, axis)
  {
    forall p | lo <= p < j
      ensures Key(a[p], axis).Le(Key(a[j], axis))
    {
      LtIsStrictOrder(Key(a[p], axis), Key(a[j - 1], axis), Key(a[j], axis));
    }
  }

  /** Exchange `a[j-1]` and `a[j]` inside `[lo, hi)`. */
  method SwapAdjacent(a: array<Hittable>, lo: nat, hi: nat, j: nat)
    requires lo < j < hi <= a.Length
    modifies a
    ensures a[..] == old(a[..])[j - 1 := old(a[j])][j := old(a[j - 1])]
    ensures multiset(a[lo..hi]) == multiset(old(a[lo..hi]))
    ensures a[..lo] == old(a[..lo]) && a[hi..] == old(a[hi..])
  {
    a[j - 1], a[j] := a[j], a[j - 1];
  }

  /** `t` is `s` reordered so that its keys on `axis` do not decrease. */
  predicate SortedPermutation(t: seq<Hittable>, s: seq<Hittable>, axis: nat) {
    |t| == |s| && multiset(t) == multiset(s) && SortedByKey(t, axis)
  }

  /**
   * `node` is what `BVHNode::new` builds over the objects `s`: a node boxing all
   * of `s`; one object is both children, two are the children in order, and
   * more are ordered along the box's longest axis and split at `|s|/2`, each
   * half built the same way.
   */
  ghost predicate BuiltOver(node: Hittable, s: seq<Hittable>)
    decreases |s|
  {
    s != [] && node.BvhObject? && node.bbox == UnionOfBoxes(s) &&
    (|s| == 1 ==> node.left == s[0] && node.right == s[0]) &&
    (|s| == 2 ==> node.left == s[0] && node.right == s[1]) &&
    (3 <= |s| ==>
       exists t :: SortedPermutation(t, s, ComparatorAxis(node.bbox.LongestAxis())) &&
                   BuiltOver(node.left, t[..|s| / 2]) && BuiltOver(node.right, t[|s| / 2..]))
  }

  /**
   * `BVHNode::new(objects, start, end)`.  The node's box is the union of the
   * boxes in the range, taken before anything moves.  One object becomes both
   * children; two objects become the children in order, unsorted; otherwise the
   * range is sorted along the longest axis, split at `start + span/2` (strictly
   * inside the range, so the recursion ends) and each half built in turn.  An
   * empty range would recurse on itself forever, so the range must be non-empty.
   */
  method Build(objects: array<Hittable>, start: nat, end: nat) returns (node: Hittable)
    requires start < end <= objects.Length
    modifies objects
    ensures BuiltOver(node, old(objects[start..end]))
    ensures node.BvhObject? && node.bbox == UnionOfBoxes(old(objects[start..end]))
    ensures forall j :: start <= j < end ==> EnclosesBox(node.bbox, old(objects[j]).BoundingBox())
    ensures multiset(objects[start..end]) == multiset(old(objects[start..end]))
    ensures objects[..start] == old(objects[..start]) && objects[end..] == old(objects[end..])
    ensures end - start == 1 ==> node.left == old(objects[start]) && node.right == old(objects[start])
    ensures end - start == 2 ==>
      node.left == old(objects[start]) && node.right == old(objects[start + 1]) &&
      objects[start..end] == old(objects[start..end])
    ensures 3 <= end - start ==>
      HalvesOrdered(objects[..], start, Mid(start, end), end, ComparatorAxis(node.bbox.LongestAxis()))
    decreases end - start
  {
    ghost var range := objects[start..end];
    var bbox := BoxOfRange(objects, start, end);
    assert forall j :: start <= j < end ==> objects[j] == range[j - start];
    var axis := bbox.LongestAxis();
    var span := end - start;
    if span == 1 {
      node := BvhObject(objects[start], objects[start], bbox);
    } else if span == 2 {
      node := BvhObject(objects[start], objects[start + 1], bbox);
    } else {
      var key := ComparatorAxis(axis);
      SortRange(objects, start, end, key);
      var mid := Mid(start, end);
      ghost var sorted := objects[..];
      SortedSplits(sorted, start, mid, end, key);
      var left := Build(objects, start, mid);
      ghost var afterLeft := objects[..];
      var right := Build(objects, mid, end);
      HalvesPermuted(sorted, afterLeft, objects[..], start, mid, end, key);
      assert HalvesOrdered(objects[..], start, mid, end, key);
      node := BvhObject(left, right, bbox);
      assert key == ComparatorAxis(node.bbox.LongestAxis());
      SortedHalves(sorted, afterLeft, start, mid, end);
      BuiltFromHalves(range, sorted[start..end], left, right, bbox);
    }
  }

  /**
   * The objects at the bottom of a hierarchy built over `n` objects: for one
   * object its left child, for two both children, otherwise those of the
   * halves of sizes `n/2` and `n - n/2`.
   */
  ghost function Leaves(node: Hittable, n: nat): multiset<Hittable>
    decreases n
  {
    if !node.BvhObject? then multiset{}
    else if n <= 1 then multiset{node.left}
    else if n == 2 then multiset{node.left, node.right}
    else Leaves(node.left, n / 2) + Leaves(node.right, n - n / 2)
  }

  /** A hierarchy built over `s` holds each object of `s` at its bottom exactly as often as `s` does. */
  lemma {:induction false} BuiltOverLeaves(node: Hittable, s: seq<Hittable>)
    requires BuiltOver(node, s)
    ensures Leaves(node, |s|) == multiset(s)
    decreases |s|
  {
    if |s| == 1 {
      assert s == [s[0]];
    } else if |s| == 2 {
      assert s == [s[0], s[1]];
    } else {
      var h := |s| / 2;
      var t :| SortedPermutation(t, s, ComparatorAxis(node.bbox.LongestAxis())) &&
               BuiltOver(node.left, t[..h]) && BuiltOver(node.right, t[h..]);
      BuiltOverLeaves(node.left, t[..h]);
      BuiltOverLeaves(node.right, t[h..]);
      LeavesOfNode(node, |s|, |t[..h]|, |t[h..]|);
      HalvesAddUp(Leaves(node, |s|), Leaves(node.left, |t[..h]|), Leaves(node.right, |t[h..]|), s, t, h);
    }
  }

  /** Whatever adds up the two halves of `t`, a reordering of `s`, adds up `s`. */
  lemma HalvesAddUp(whole: multiset<Hittable>, l: multiset<Hittable>, r: multiset<Hittable>,
                    s: seq<Hittable>, t: seq<Hittable>, h: nat)
    requires h <= |t| && multiset(t) == multiset(s)
    requires whole == l + r && l == multiset(t[..h]) && r == multiset(t[h..])
    ensures whole == multiset(s)
  {
    SplitMultiset(t, h);
  }

  /** The leaves of a node over three or more objects are those of its halves. */
  lemma LeavesOfNode(node: Hittable, n: nat, a: nat, b: nat)
    requires node.BvhObject? && 3 <= n && a == n / 2 && b == n - n / 2
    ensures Leaves(node, n) == Leaves(node.left, a) + Leaves(node.right, b)
  {
  }

  /** Splitting a sequence splits its multiset. */
  lemma SplitMultiset(t: seq<Hittable>, h: nat)
    requires h <= |t|
    ensures multiset(t) == multiset(t[..h]) + multiset(t[h..])
  {
    assert t == t[..h] + t[h..];
  }

  /** The recursive case of `BuiltOver`, with `t` as the witness ordering. */
  lemma BuiltFromHalves(range: seq<Hittable>, t: seq<Hittable>, left: Hittable, right: Hittable, bbox: Aabb)
    requires 3 <= |range| && bbox == UnionOfBoxes(range)
    requires SortedPermutation(t, range, ComparatorAxis(bbox.LongestAxis()))
    requires BuiltOver(left, t[..|range| / 2]) && BuiltOver(right, t[|range| / 2..])
    ensures BuiltOver(BvhObject(left, right, bbox), range)
  {
  }

  /**
   * The halves of the sorted range are the ranges the two recursive calls
   * start from: the left call sees `sorted[start..mid]`, and the right call
   * sees `sorted[mid..end]` untouched by the left one.
   */
  lemma SortedHalves(sorted: seq<Hittable>, afterLeft: seq<Hittable>, start: nat, mid: nat, end: nat)
    requires start <= end && mid == Mid(start, end) && end <= |sorted| == |afterLeft|
    requires afterLeft[mid..] == sorted[mid..]
    ensures sorted[start..end][..(end - start) / 2] == sorted[start..mid]
    ensures sorted[start..end][(end - start) / 2..] == afterLeft[mid..end]
  {
    assert afterLeft[mid..end] == afterLeft[mid..][..end - mid];
    assert sorted[mid..end] == sorted[mid..][..end - mid];
  }

  /** `start + object_span / 2`: strictly inside a range of two or more objects. */
  function Mid(start: nat, end: nat): (mid: nat)
    requires start <= end
    ensures start <= mid <= end
    ensures 2 <= end - start ==> start < mid < end
  {
    start + (end - start) / 2
  }

  /** The loop of `BVHNode::new` that accumulates the boxes of `objects[start..end]`. */
  method BoxOfRange(objects: array<Hittable>, start: nat, end: nat) returns (bbox: Aabb)
    requires start <= end <= objects.Length
    ensures bbox == UnionOfBoxes(objects[start..end])
    ensures forall j :: start <= j < end ==> EnclosesBox(bbox, objects[j].BoundingBox())
  {
    ghost var range := objects[start..end];
    bbox := Boxes.Empty();
    for i := start to end
      invariant bbox == UnionOfBoxes(range[..i - start])
    {
      assert objects[i] == range[i - start];
      UnionExtends(range, i - start);
      bbox := FromBoxes(bbox, objects[i].BoundingBox());
    }
    assert range[..end - start] == range;
    assert forall j :: start <= j < end ==> objects[j] == range[j - start];
  }

  /** Extending the range by one object merges that object's box into the union. */
  lemma UnionExtends(s: seq<Hittable>, n: nat)
    requires n < |s|
    ensures UnionOfBoxes(s[..n + 1]) == FromBoxes(UnionOfBoxes(s[..n]), s[n].BoundingBox())
  {
    assert s[..n + 1][..n] == s[..n];
  }

  /** Every key in `a[start..mid]` is at most every key in `a[mid..end]`. */
  predicate HalvesOrdered(a: seq<Hittable>, start: nat, mid: nat, end: nat, axis: nat) {
    start <= mid <= end <= |a| &&
    forall x, y :: x in a[start..mid] && y in a[mid..end] ==> Key(x, axis).Le(Key(y, axis))
  }

  /** A sorted range splits into an ordered pair of halves. */
  lemma SortedSplits(a: seq<Hittable>, start: nat, mid: nat, end: nat, axis: nat)
    requires start <= mid <= end <= |a|
    requires SortedByKey(a[start..end], axis)
    ensures HalvesOrdered(a, start, mid, end, axis)
  {
    forall x, y | x in a[start..mid] && y in a[mid..end]
      ensures Key(x, axis).Le(Key(y, axis))
    {
      var p :| start <= p < mid && a[p] == x;
      var q :| mid <= q < end && a[q] == y;
      assert a[p] == a[start..end][p - start] && a[q] == a[start..end][q - start];
    }
  }

  /**
   * Building the left half, then the right half, permutes each half in place:
   * the halves stay ordered and the whole range stays a permutation.
   */
  lemma HalvesPermuted(sorted: seq<Hittable>, afterLeft: seq<Hittable>, final: seq<Hittable>,
                       start: nat, mid: nat, end: nat, axis: nat)
    requires start <= mid <= end <= |sorted| == |afterLeft| == |final|
    requires HalvesOrdered(sorted, start, mid, end, axis)
    requires multiset(afterLeft[start..mid]) == multiset(sorted[start..mid])
    requires afterLeft[..start] == sorted[..start] && afterLeft[mid..] == sorted[mid..]
    requires multiset(final[mid..end]) == multiset(afterLeft[mid..end])
    requires final[..mid] == afterLeft[..mid] && final[end..] == afterLeft[end..]
    ensures HalvesOrdered(final, start, mid, end, axis)
    ensures multiset(final[start..end]) == multiset(sorted[start..end])
    ensures final[..start] == sorted[..start] && final[end..] == sorted[end..]
  {
    assert final[start..mid] == final[..mid][start..] && afterLeft[start..mid] == afterLeft[..mid][start..];
    assert afterLeft[mid..end] == afterLeft[mid..][..end - mid] && sorted[mid..end] == sorted[mid..][..end - mid];
    assert final[..start] == final[..mid][..start] && afterLeft[..start] == afterLeft[..mid][..start];
    assert final[end..] == afterLeft[end..] == afterLeft[mid..][end - mid..] == sorted[mid..][end - mid..] == sorted[end..];
    forall x | x in final[start..mid]
      ensures x in sorted[start..mid]
    {
      assert x in multiset(afterLeft[start..mid]);
    }
    forall y | y in final[mid..end]
      ensures y in sorted[mid..end]
    {
      assert y in multiset(afterLeft[mid..end]);
    }
    assert final[start..end] == final[start..mid] + final[mid..end];
    assert sorted[start..end] == sorted[start..mid] + sorted[mid..end];
  }

  /** `from_list`: the whole list's objects, moved out of the list, as one hierarchy. */
  method FromList(objects: seq<Hittable>) returns (node: Hittable)
    requires objects != []
    ensures BuiltOver(node, objects)
    ensures node.BvhObject? && node.bbox == UnionOfBoxes(objects)
    ensures forall j :: 0 <= j < |objects| ==> EnclosesBox(node.bbox, objects[j].BoundingBox())
  {
    var a := new Hittable[|objects|](i requires 0 <= i < |objects| => objects[i]);
    assert a[0..a.Length] == objects;
    node := Build(a, 0, a.Length);
  }
}
