/** The coordinate helpers of the plotting widgets: axis limits converted to
    other units, a point snapped to the allowed channel and sample values, and
    the corners of a selection put in order. */
module Widgets {
  import opened Base

  /** (xmin, xmax, ymin, ymax), or the (minx, miny, maxx, maxy) of a rectangle. */
  type Limits = (real, real, real, real)

  function RMin(a: real, b: real): real { if a <= b then a else b }
  function RMax(a: real, b: real): real { if a >= b then a else b }
  function Abs(a: real): real { if a < 0.0 then -a else a }

  // ---------------------------------------------------------------- mu_range

  /** mu_range: both x limits multiplied by kx and both y limits by ky. */
  function MuRange(limits: Limits, kx: real, ky: real): Limits
  {
    (limits.0 * kx, limits.1 * kx, limits.2 * ky, limits.3 * ky)
  }

  /** A non-negative factor keeps the limits of its axis in order, a negative
      one reverses them. */
  lemma MuRangeOrder(limits: Limits, kx: real, ky: real)
    ensures var r := MuRange(limits, kx, ky);
      (kx >= 0.0 && limits.0 <= limits.1 ==> r.0 <= r.1) &&
      (ky >= 0.0 && limits.2 <= limits.3 ==> r.2 <= r.3) &&
      (kx < 0.0 && limits.0 < limits.1 ==> r.0 > r.1) &&
      (ky < 0.0 && limits.2 < limits.3 ==> r.2 > r.3)
  {
    var r := MuRange(limits, kx, ky);
    ScaleOrder(limits.0, limits.1, kx);
    ScaleOrder(limits.2, limits.3, ky);
  }

  lemma ScaleOrder(a: real, b: real, k: real)
    ensures k >= 0.0 && a <= b ==> a * k <= b * k
    ensures k < 0.0 && a < b ==> a * k > b * k
  {
    assert b * k - a * k == (b - a) * k;
  }

  /** Converting there and back with the reciprocal factors gives the limits back. */
  lemma MuRangeInverse(limits: Limits, kx: real, ky: real)
    requires kx != 0.0 && ky != 0.0
    ensures MuRange(MuRange(limits, kx, ky), 1.0 / kx, 1.0 / ky) == limits
  {
    var r := MuRange(MuRange(limits, kx, ky), 1.0 / kx, 1.0 / ky);
    Unscale(limits.0, kx);
    Unscale(limits.1, kx);
    Unscale(limits.2, ky);
    Unscale(limits.3, ky);
    assert r.0 == limits.0 && r.1 == limits.1 && r.2 == limits.2 && r.3 == limits.3;
  }

  lemma Unscale(a: real, k: real)
    requires k != 0.0
    ensures a * k * (1.0 / k) == a
  {
    assert k * (1.0 / k) == 1.0;
    assert a * k * (1.0 / k) == a * (k * (1.0 / k));
  }

  // ---------------------------------------------------------------- argmin and argmax

  /** numpy argmin: the first index of a smallest element. */
  function ArgMin(s: seq<real>): (i: nat)
    requires s != []
    ensures i < |s|
    ensures forall j :: 0 <= j < |s| ==> s[i] <= s[j]
    ensures forall j :: 0 <= j < i ==> s[j] > s[i]
  {
    if |s| == 1 then 0
    else
      var init := s[..|s| - 1];
      assert forall j :: 0 <= j < |init| ==> init[j] == s[j];
      var k := ArgMin(init);
      if s[|s| - 1] < s[k] then |s| - 1 else k
  }

  /** numpy argmax: the first index of a largest element. */
  function ArgMax(s: seq<real>): (i: nat)
    requires s != []
    ensures i < |s|
    ensures forall j :: 0 <= j < |s| ==> s[i] >= s[j]
    ensures forall j :: 0 <= j < i ==> s[j] < s[i]
  {
    if |s| == 1 then 0
    else
      var init := s[..|s| - 1];
      assert forall j :: 0 <= j < |init| ==> init[j] == s[j];
      var k := ArgMax(init);
      if s[|s| - 1] > s[k] then |s| - 1 else k
  }

  /** a - x, element by element. */
  function Offsets(a: seq<real>, x: real): (dx: seq<real>)
    ensures |dx| == |a| && forall i :: 0 <= i < |a| ==> dx[i] == a[i] - x
  {
    seq(|a|, i requires 0 <= i < |a| => a[i] - x)
  }

  /** np.abs(a - x). */
  function Distances(a: seq<real>, x: real): (ds: seq<real>)
    ensures |ds| == |a| && forall i :: 0 <= i < |a| ==> ds[i] == Abs(a[i] - x)
  {
    seq(|a|, i requires 0 <= i < |a| => Abs(a[i] - x))
  }

  ghost predicate Ascending(a: seq<real>)
  {
    forall i, j :: 0 <= i < j < |a| ==> a[i] <= a[j]
  }

  // ---------------------------------------------------------------- snapping

  /** The element of a closest to x; the first one on a tie. */
  ghost predicate Closest(a: seq<real>, x: real, v: real)
  {
    exists i :: 0 <= i < |a| && a[i] == v &&
      (forall j :: 0 <= j < |a| ==> Abs(a[j] - x) >= Abs(v - x)) &&
      (forall j :: 0 <= j < i ==> Abs(a[j] - x) > Abs(v - x))
  }

  /** nearest_coord: the allowed x and y values closest to (x, y); argmin of
      an empty array raises ValueError. */
  function NearestCoord(x: real, y: real, xs: seq<real>, ys: seq<real>): (r: Result<(real, real)>)
    ensures r.Err? <==> xs == [] || ys == []
    ensures r.Err? ==> r.error == ValueError
    ensures r.Ok? ==> Closest(xs, x, r.value.0) && Closest(ys, y, r.value.1)
  {
    if xs == [] || ys == [] then Err(ValueError)
    else
      var i, j := ArgMin(Distances(xs, x)), ArgMin(Distances(ys, y));
      Ok((xs[i], ys[j]))
  }

  function IsNonPositive(d: real): bool { d <= 0.0 }
  function IsNonNegative(d: real): bool { d >= 0.0 }

  /** floor_coord: argmax of the non-positive offsets, used as an index into
      the whole array; ValueError when no element is at most x. */
  function FloorCoord(x: real, a: seq<real>): Result<real>
  {
    var below := Filter(Offsets(a, x), IsNonPositive);
    if below == [] then Err(ValueError) else Ok(a[ArgMax(below)])
  }

  /** ceil_coord: past the last element the nearest element; otherwise the
      element at the index size - (number of non-negative offsets). */
  function CeilCoord(x: real, a: seq<real>): Result<real>
  {
    if a == [] then Err(IndexError)
    else if x > a[|a| - 1] then Ok(NearestCoord(x, x, a, a).value.0)
    else
      var above := Filter(Offsets(a, x), IsNonNegative);
      Members(Offsets(a, x), IsNonNegative, |a| - 1);
      Ok(a[|a| - |above|])
  }

  lemma Members(s: seq<real>, p: real -> bool, k: int)
    requires 0 <= k < |s| && p(s[k])
    ensures |Filter(s, p)| >= 1
  {
    FilterMembers(s, p, s[k]);
  }

  /** floor_coord fails exactly when every element is above x. */
  lemma FloorCoordFails(x: real, a: seq<real>)
    ensures FloorCoord(x, a).Err? <==> forall i :: 0 <= i < |a| ==> a[i] > x
  {
    var dx := Offsets(a, x);
    var below := Filter(dx, IsNonPositive);
    if exists i :: 0 <= i < |a| && a[i] <= x {
      var i :| 0 <= i < |a| && a[i] <= x;
      assert dx[i] in dx;
      FilterMembers(dx, IsNonPositive, dx[i]);
    } else {
      FilterAll(dx, IsNonPositive, false);
    }
  }

  /** On an ascending array whose first element is at most x, floor_coord
      returns the largest element at most x. */
  lemma FloorCoordLargestBelow(x: real, a: seq<real>)
    requires Ascending(a) && a != [] && a[0] <= x
    ensures var r := FloorCoord(x, a);
      r.Ok? && r.value <= x && r.value in a &&
      forall i :: 0 <= i < |a| && a[i] <= x ==> a[i] <= r.value
  {
    var dx := Offsets(a, x);
    var k := AtMost(a, x);
    FilterSplit(dx, IsNonPositive, k, true);
    var below := dx[..k];
    assert below != [] by {
      assert dx[0] <= 0.0;
    }
    var idx := ArgMax(below);
    assert below[idx] == a[idx] - x;
    forall i | 0 <= i < |a| && a[i] <= x
      ensures a[i] <= a[idx]
    {
      assert i < k;
      assert below[i] == a[i] - x;
    }
  }

  /** On an ascending array, ceil_coord returns the smallest element at least
      x, or the last element when x lies past it. */
  lemma CeilCoordSmallestAbove(x: real, a: seq<real>)
    requires Ascending(a)
    ensures var r := CeilCoord(x, a);
      (r.Err? <==> a == []) &&
      (a != [] && x > a[|a| - 1] ==> r == Ok(a[|a| - 1])) &&
      (a != [] && x <= a[|a| - 1] ==>
        r.Ok? && r.value >= x && r.value in a &&
        forall i :: 0 <= i < |a| && a[i] >= x ==> r.value <= a[i])
  {
    if a != [] {
      if x > a[|a| - 1] {
        CeilCoordPast(x, a);
      } else {
        CeilCoordWithin(x, a);
      }
    }
  }

  /** Past the last element of an ascending array, the nearest element is
      the last one. */
  lemma CeilCoordPast(x: real, a: seq<real>)
    requires Ascending(a) && a != [] && x > a[|a| - 1]
    ensures CeilCoord(x, a) == Ok(a[|a| - 1])
  {
    var n := |a|;
    var v := NearestCoord(x, x, a, a).value.0;
    var i :| 0 <= i < n && a[i] == v && forall j :: 0 <= j < n ==> Abs(a[j] - x) >= Abs(v - x);
    assert Abs(a[n - 1] - x) >= Abs(v - x);
  }

  /** Up to the last element, the non-negative offsets are those from the
      first element at least x onwards, so that element is returned. */
  lemma CeilCoordWithin(x: real, a: seq<real>)
    requires Ascending(a) && a != [] && x <= a[|a| - 1]
    ensures CeilCoord(x, a) == Ok(a[Below(a, x)])
  {
    var dx := Offsets(a, x);
    var k := Below(a, x);
    FilterSplit(dx, IsNonNegative, k, false);
    assert Filter(dx, IsNonNegative) == dx[k..];
  }

  /** A sequence whose first k elements satisfy p and whose others do not
      keeps exactly the first k. */
  lemma FilterSplit(s: seq<real>, p: real -> bool, k: nat, head: bool)
    requires k <= |s|
    requires forall i :: 0 <= i < |s| ==> p(s[i]) == (head == (i < k))
    ensures Filter(s, p) == if head then s[..k] else s[k..]
  {
    var front, back := s[..k], s[k..];
    assert s == front + back;
    FilterAppend(front, back, p);
    forall i | 0 <= i < |front|
      ensures p(front[i]) == head
    {
      assert front[i] == s[i];
    }
    forall i | 0 <= i < |back|
      ensures p(back[i]) == !head
    {
      assert back[i] == s[k + i];
    }
    FilterAll(front, p, head);
    FilterAll(back, p, !head);
  }

  lemma {:induction false} FilterAll(s: seq<real>, p: real -> bool, keep: bool)
    requires forall i :: 0 <= i < |s| ==> p(s[i]) == keep
    ensures Filter(s, p) == if keep then s else []
  {
    if s != [] {
      assert forall i :: 0 <= i < |s[1..]| ==> s[1..][i] == s[i + 1];
      FilterAll(s[1..], p, keep);
      assert s == [s[0]] + s[1..];
    }
  }

  /** The number of leading elements at most x of an ascending array. */
  function AtMost(a: seq<real>, x: real): (k: nat)
    requires Ascending(a)
    ensures k <= |a|
    ensures forall i :: 0 <= i < k ==> a[i] <= x
    ensures forall i :: k <= i < |a| ==> a[i] > x
  {
    if a == [] || a[|a| - 1] <= x then |a| else AtMost(a[..|a| - 1], x)
  }

  /** The number of leading elements below x of an ascending array. */
  function Below(a: seq<real>, x: real): (k: nat)
    requires Ascending(a)
    ensures k <= |a|
    ensures forall i :: 0 <= i < k ==> a[i] < x
    ensures forall i :: k <= i < |a| ==> a[i] >= x
  {
    if a == [] || a[|a| - 1] < x then |a| else Below(a[..|a| - 1], x)
  }

  /** Without the ascending order the index into the filtered offsets no
      longer points at an element below x. */
  lemma FloorCoordNeedsOrder()
    ensures FloorCoord(2.0, [5.0, 1.0]) == Ok(5.0)
  {
    var a := [5.0, 1.0];
    var dx := Offsets(a, 2.0);
    assert dx == [3.0, -1.0];
    assert Filter(dx, IsNonPositive) == [-1.0] by {
      assert dx[1..] == [-1.0];
      assert dx[1..][1..] == [];
    }
  }

  // ---------------------------------------------------------------- get_ordered_rect

  /** The selection items get_ordered_rect is given. */
  datatype Item =
    | AnnotatedRectangle(x1: real, y1: real, x2: real, y2: real)
    | XRangeSelection(lo: real, hi: real)
    | OtherItem

  /** get_ordered_rect: (min x, min y, max x, max y) of a rectangle, and
      (min x, ylimits[1], max x, ylimits[0]) of a range; any other item
      leaves minx unbound. */
  function OrderedRect(item: Item, ylimits: (real, real)): (r: Result<Limits>)
    ensures r.Err? <==> item.OtherItem?
    ensures r.Err? ==> r.error == UnboundLocalError
    ensures r.Ok? ==> r.value.0 <= r.value.2
    ensures item.AnnotatedRectangle? ==>
      r.value.1 <= r.value.3 &&
      {r.value.0, r.value.2} == {item.x1, item.x2} && {r.value.1, r.value.3} == {item.y1, item.y2}
    ensures item.XRangeSelection? ==>
      {r.value.0, r.value.2} == {item.lo, item.hi} && r.value.1 == ylimits.1 && r.value.3 == ylimits.0
  {
    match item
    case AnnotatedRectangle(x1, y1, x2, y2) => Ok((RMin(x1, x2), RMin(y1, y2), RMax(x1, x2), RMax(y1, y2)))
    case XRangeSelection(x1, x2) => Ok((RMin(x1, x2), ylimits.1, RMax(x1, x2), ylimits.0))
    case OtherItem => Err(UnboundLocalError)
  }

  /** Ordering is idempotent: an ordered rectangle comes back unchanged, and
      swapping the corners of a rectangle does not change its ordering. */
  lemma OrderedRectIdempotent(item: Item, ylimits: (real, real))
    requires item.AnnotatedRectangle?
    ensures var r := OrderedRect(item, ylimits).value;
      OrderedRect(AnnotatedRectangle(r.0, r.1, r.2, r.3), ylimits) == Ok(r) &&
      OrderedRect(AnnotatedRectangle(item.x2, item.y2, item.x1, item.y1), ylimits) == Ok(r)
  {
  }
}
