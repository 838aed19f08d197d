/** The coordinate helpers of the GeoJSON to GML converter: flattening nested
    coordinate lists, the padding `grouper`, bounding boxes from flat
    coordinate lists and from corner points, and the (x, y) to (y, x) swap
    applied before coordinates are written. Python's None, used as padding,
    is `None` of an `Option<real>`. */
module GmlCoords {
  import opened Wrappers
  import opened Seqs

  // ---------------------------------------------------------------------------
  // Nested coordinates and flatten

  /** A GeoJSON coordinate structure: a number, or a list of them nested to
      any depth. */
  datatype Nested = Num(v: real) | Items(xs: seq<Nested>)

  /** The numbers of `xs`, left to right, at any depth: the local `flatten`
      of `flatten_to_coordinate_pairs` applied to each item in turn. */
  function FlattenSeq(xs: seq<Nested>): seq<real>
    decreases xs
  {
    if xs == [] then []
    else
      (match xs[0]
       case Num(v) => [v]
       case Items(ys) => FlattenSeq(ys)) + FlattenSeq(xs[1..])
  }

  /** `list(flatten(coordinates))`: a number is a list of itself. */
  function Flatten(n: Nested): seq<real> {
    FlattenSeq([n])
  }

  lemma {:induction false} FlattenSeqAppend(a: seq<Nested>, b: seq<Nested>)
    ensures FlattenSeq(a + b) == FlattenSeq(a) + FlattenSeq(b)
    decreases |a|
  {
    if a == [] {
      assert a + b == b;
    } else {
      assert (a + b)[0] == a[0] && (a + b)[1..] == a[1..] + b;
      FlattenSeqAppend(a[1..], b);
    }
  }

  lemma FlattenItems(xs: seq<Nested>)
    ensures Flatten(Items(xs)) == FlattenSeq(xs)
  {
    assert FlattenSeq([Items(xs)]) == FlattenSeq(xs) + FlattenSeq([]);
  }

  /** A position `[x, y]`. */
  predicate IsPosition(p: Nested) {
    p.Items? && |p.xs| == 2 && p.xs[0].Num? && p.xs[1].Num?
  }

  /** A ring: a list of positions. */
  predicate IsRing(r: Nested) {
    r.Items? && forall i :: 0 <= i < |r.xs| ==> IsPosition(r.xs[i])
  }

  /** A ring flattens to its coordinates, x then y for each position. */
  lemma {:induction false} FlattenRing(ps: seq<Nested>)
    requires forall i :: 0 <= i < |ps| ==> IsPosition(ps[i])
    ensures |FlattenSeq(ps)| == 2 * |ps|
    ensures forall i :: 0 <= i < |ps| ==>
      (IsPosition(ps[i]) && FlattenSeq(ps)[2 * i] == ps[i].xs[0].v && FlattenSeq(ps)[2 * i + 1] == ps[i].xs[1].v)
    decreases |ps|
  {
    if ps != [] {
      FlattenRing(ps[1..]);
      var p := ps[0].xs;
      assert FlattenSeq(p) == [p[0].v] + FlattenSeq(p[1..]);
      assert FlattenSeq(p[1..]) == [p[1].v] + FlattenSeq(p[2..]);
      assert p[2..] == [];
      assert FlattenSeq(ps) == [p[0].v, p[1].v] + FlattenSeq(ps[1..]);
      forall i | 1 <= i < |ps|
        ensures FlattenSeq(ps)[2 * i] == ps[i].xs[0].v && FlattenSeq(ps)[2 * i + 1] == ps[i].xs[1].v
      {
        var k := i - 1;
        assert ps[1..][k] == ps[i];
        assert 2 * i == 2 * k + 2;
      }
    }
  }

  // ---------------------------------------------------------------------------
  // grouper(n, iterable, fillvalue)

  /** `k` copies of `x`. */
  function Fill<T>(x: T, k: nat): (r: seq<T>)
    ensures |r| == k && forall i :: 0 <= i < k ==> r[i] == x
  {
    seq(k, _ => x)
  }

  /** `zip_longest(*[iter(xs)] * n, fillvalue=fill)`: `xs` in groups of `n`,
      the last one padded with `fill`; with `n` = 0 there is nothing to zip
      and no group. */
  function Grouper<T>(n: nat, xs: seq<T>, fill: T): seq<seq<T>>
    decreases |xs|
  {
    if n == 0 || xs == [] then []
    else if |xs| < n then [xs + Fill(fill, n - |xs|)]
    else [xs[..n]] + Grouper(n, xs[n..], fill)
  }

  /** Every group holds `n` items, and together the groups are `xs`
      followed by fewer than `n` fill values. */
  lemma GrouperShape<T>(n: nat, xs: seq<T>, fill: T)
    requires n > 0
    ensures forall j :: 0 <= j < |Grouper(n, xs, fill)| ==> |Grouper(n, xs, fill)[j]| == n
    ensures 0 <= |Grouper(n, xs, fill)| * n - |xs| < n
    ensures Concat(Grouper(n, xs, fill)) == xs + Fill(fill, |Grouper(n, xs, fill)| * n - |xs|)
  {
    GroupSizes(n, xs, fill);
    GrouperPadding(n, xs, fill);
    GrouperConcat(n, xs, fill);
  }

  lemma {:induction false} GroupSizes<T>(n: nat, xs: seq<T>, fill: T)
    requires n > 0
    ensures forall j :: 0 <= j < |Grouper(n, xs, fill)| ==> |Grouper(n, xs, fill)[j]| == n
    decreases |xs|
  {
    if xs != [] && |xs| >= n {
      GroupSizes(n, xs[n..], fill);
      var g, rest := Grouper(n, xs, fill), Grouper(n, xs[n..], fill);
      assert g == [xs[..n]] + rest;
      forall j | 1 <= j < |g|
        ensures |g[j]| == n
      {
        assert g[j] == rest[j - 1];
      }
    }
  }

  /** The number of fill values the last group takes. */
  function Padding(n: nat, len: nat): (k: nat)
    requires n > 0
    ensures k < n
    decreases len
  {
    if len == 0 then 0 else if len < n then n - len else Padding(n, len - n)
  }

  lemma {:induction false} GrouperPadding<T>(n: nat, xs: seq<T>, fill: T)
    requires n > 0
    ensures |Grouper(n, xs, fill)| * n - |xs| == Padding(n, |xs|)
    decreases |xs|
  {
    if xs != [] && |xs| >= n {
      GrouperPadding(n, xs[n..], fill);
      var g, rest := Grouper(n, xs, fill), Grouper(n, xs[n..], fill);
      assert |g| == 1 + |rest|;
      assert (1 + |rest|) * n == n + |rest| * n;
    }
  }

  lemma {:induction false} GrouperConcat<T>(n: nat, xs: seq<T>, fill: T)
    requires n > 0
    ensures Concat(Grouper(n, xs, fill)) == xs + Fill(fill, Padding(n, |xs|))
    decreases |xs|
  {
    var g := Grouper(n, xs, fill);
    if xs == [] {
      assert xs + Fill(fill, 0) == xs;
    } else if |xs| < n {
      assert g == [xs + Fill(fill, n - |xs|)];
      assert Concat(g) == g[0] + Concat(g[1..]);
      assert g[1..] == [];
    } else {
      var head, tail := xs[..n], xs[n..];
      GrouperConcat(n, tail, fill);
      var rest := Grouper(n, tail, fill);
      assert g == [head] + rest;
      assert g[0] == head && g[1..] == rest;
      assert Concat(g) == head + Concat(rest);
      assert Padding(n, |xs|) == Padding(n, |tail|);
      assert xs == head + tail;
    }
  }

  /** `grouper(3, 'ABCDEFG', 'x')` gives ABC, DEF, Gxx. */
  lemma GrouperExample()
    ensures Grouper(3, "ABCDEFG", 'x') == ["ABC", "DEF", "Gxx"]
  {
    assert "ABCDEFG"[..3] == "ABC" && "ABCDEFG"[3..] == "DEFG";
    assert "DEFG"[..3] == "DEF" && "DEFG"[3..] == "G";
    assert Fill('x', 2) == "xx";
    assert Grouper(3, "G", 'x') == ["G" + Fill('x', 2)];
    assert "G" + Fill('x', 2) == "Gxx";
    assert Grouper(3, "DEFG", 'x') == ["DEF"] + ["Gxx"];
  }

  // ---------------------------------------------------------------------------
  // min and max over values that may be None

  /** The smallest of some reals. */
  function MinReal(xs: seq<real>): (m: real)
    requires xs != []
    ensures m in xs && forall x :: x in xs ==> m <= x
    decreases |xs|
  {
    if |xs| == 1 then xs[0]
    else
      var rest := MinReal(xs[1..]);
      assert forall x :: x in xs ==> x == xs[0] || x in xs[1..];
      if xs[0] <= rest then xs[0] else rest
  }

  /** The largest of some reals. */
  function MaxReal(xs: seq<real>): (m: real)
    requires xs != []
    ensures m in xs && forall x :: x in xs ==> x <= m
    decreases |xs|
  {
    if |xs| == 1 then xs[0]
    else
      var rest := MaxReal(xs[1..]);
      assert forall x :: x in xs ==> x == xs[0] || x in xs[1..];
      if xs[0] >= rest then xs[0] else rest
  }

  const NoneComparison := TypeError("'<' not supported between instances of 'NoneType' and 'float'")

  /** The numbers of a list known to hold no None. */
  function Values(xs: seq<Option<real>>): (r: seq<real>)
    requires forall i :: 0 <= i < |xs| ==> xs[i].Some?
    ensures |r| == |xs| && forall i :: 0 <= i < |xs| ==> r[i] == xs[i].value
  {
    seq(|xs|, i requires 0 <= i < |xs| => xs[i].value)
  }

  predicate NoNone(xs: seq<Option<real>>) {
    forall i :: 0 <= i < |xs| ==> xs[i].Some?
  }

  /** Python's `min` over numbers and None: a single item is returned as it
      is, None included; among two or more, a None cannot be compared. */
  function PyMin(xs: seq<Option<real>>): Result<Option<real>> {
    if xs == [] then Err(ValueError("min() arg is an empty sequence"))
    else if |xs| == 1 then Ok(xs[0])
    else if !NoNone(xs) then Err(NoneComparison)
    else Ok(Some(MinReal(Values(xs))))
  }

  /** Python's `max`, likewise. */
  function PyMax(xs: seq<Option<real>>): Result<Option<real>> {
    if xs == [] then Err(ValueError("max() arg is an empty sequence"))
    else if |xs| == 1 then Ok(xs[0])
    else if !NoNone(xs) then Err(NoneComparison)
    else Ok(Some(MaxReal(Values(xs))))
  }

  // ---------------------------------------------------------------------------
  // Bounding boxes

  /** `[(minx, miny), (maxx, maxy)]`; a y is None when the coordinates had
      only one number. */
  datatype Corners = Corners(minx: Option<real>, miny: Option<real>, maxx: Option<real>, maxy: Option<real>)

  function Lift(xs: seq<real>): (r: seq<Option<real>>)
    ensures |r| == |xs| && forall i :: 0 <= i < |xs| ==> r[i] == Some(xs[i])
  {
    seq(|xs|, i requires 0 <= i < |xs| => Some(xs[i]))
  }

  /** `grouper(2, points)`: the flat list in pairs, the last padded with None. */
  function Pairs(flat: seq<real>): seq<seq<Option<real>>> {
    Grouper(2, Lift(flat), None)
  }

  /** The pairs are (flat[2i], flat[2i+1]), with None where the list ran out. */
  lemma {:induction false} PairsAt(flat: seq<real>)
    ensures |Pairs(flat)| == (|flat| + 1) / 2
    ensures forall i :: 0 <= i < |Pairs(flat)| ==>
      |Pairs(flat)[i]| == 2 && Pairs(flat)[i][0] == Some(flat[2 * i]) &&
      Pairs(flat)[i][1] == (if 2 * i + 1 < |flat| then Some(flat[2 * i + 1]) else None)
    decreases |flat|
  {
    if |flat| >= 2 {
      PairsAt(flat[2..]);
      assert Lift(flat)[2..] == Lift(flat[2..]);
      assert Lift(flat)[..2] == [Some(flat[0]), Some(flat[1])];
      var p := Pairs(flat);
      assert p == [Lift(flat)[..2]] + Pairs(flat[2..]);
      forall i | 1 <= i < |p|
        ensures p[i] == Pairs(flat[2..])[i - 1]
      {
      }
    } else if |flat| == 1 {
      assert Pairs(flat) == [Lift(flat) + Fill(None, 1)];
    }
  }

  /** Column `k` of a list of pairs: what `zip(*pairs)` unpacks into x or y. */
  function Column(pairs: seq<seq<Option<real>>>, k: nat): (r: seq<Option<real>>)
    requires k < 2 && forall i :: 0 <= i < |pairs| ==> |pairs[i]| == 2
    ensures |r| == |pairs| && forall i :: 0 <= i < |pairs| ==> r[i] == pairs[i][k]
  {
    seq(|pairs|, i requires 0 <= i < |pairs| => pairs[i][k])
  }

  const UnpackNothing := ValueError("not enough values to unpack (expected 2, got 0)")

  /** `Geometry.bounding_box_from_coordinates(points)`: the flat list in
      pairs, unzipped into its x and y values, each reduced by min and max. */
  function BoundingBoxFromCoordinates(flat: seq<real>): Result<Corners> {
    var pairs := Pairs(flat);
    if pairs == [] then Err(UnpackNothing)
    else
      PairsAt(flat);
      var xs := Column(pairs, 0);
      var ys := Column(pairs, 1);
      var minx :- PyMin(xs);
      var miny :- PyMin(ys);
      var maxx :- PyMax(xs);
      var maxy :- PyMax(ys);
      Ok(Corners(minx, miny, maxx, maxy))
  }

  /** The point `i` of a flat coordinate list of even length lies in the box. */
  predicate InBox(c: Corners, x: real, y: real) {
    c.minx.Some? && c.miny.Some? && c.maxx.Some? && c.maxy.Some? &&
    c.minx.value <= x <= c.maxx.value && c.miny.value <= y <= c.maxy.value
  }

  /** What the bounding box of a flat coordinate list comes to: nothing to
      unpack when it is empty; a single number is both corners' x with no y;
      any other odd length leaves a None y among numbers, which min cannot
      compare; an even length gives the smallest box holding every point,
      each side touching some point. */
  lemma BoundingBoxCases(flat: seq<real>)
    ensures |flat| == 0 ==> BoundingBoxFromCoordinates(flat) == Err(UnpackNothing)
    ensures |flat| == 1 ==>
      BoundingBoxFromCoordinates(flat) == Ok(Corners(Some(flat[0]), None, Some(flat[0]), None))
    ensures |flat| >= 3 && |flat| % 2 == 1 ==> BoundingBoxFromCoordinates(flat) == Err(NoneComparison)
    ensures |flat| >= 2 && |flat| % 2 == 0 ==>
      var r := BoundingBoxFromCoordinates(flat);
      r.Ok? &&
      (forall i :: 0 <= i < |flat| / 2 ==> InBox(r.value, flat[2 * i], flat[2 * i + 1])) &&
      (exists i :: 0 <= i < |flat| / 2 && flat[2 * i] == r.value.minx.value) &&
      (exists i :: 0 <= i < |flat| / 2 && flat[2 * i] == r.value.maxx.value) &&
      (exists i :: 0 <= i < |flat| / 2 && flat[2 * i + 1] == r.value.miny.value) &&
      (exists i :: 0 <= i < |flat| / 2 && flat[2 * i + 1] == r.value.maxy.value)
  {
    PairsAt(flat);
    var pairs := Pairs(flat);
    if |flat| == 1 {
      assert Column(pairs, 0) == [Some(flat[0])];
      assert Column(pairs, 1) == [None];
    } else if |flat| >= 3 && |flat| % 2 == 1 {
      var k := |pairs| - 1;
      assert Column(pairs, 1)[k] == None;
    } else if |flat| >= 2 && |flat| % 2 == 0 {
      var n := |pairs|;
      var xs := Column(pairs, 0);
      var ys := Column(pairs, 1);
      assert n == |flat| / 2;
      assert NoNone(xs) && NoNone(ys);
      var vx := Values(xs);
      var vy := Values(ys);
      var r := BoundingBoxFromCoordinates(flat).value;
      forall i | 0 <= i < n
        ensures InBox(r, flat[2 * i], flat[2 * i + 1])
      {
        assert vx[i] == flat[2 * i] && vx[i] in vx;
        assert vy[i] == flat[2 * i + 1] && vy[i] in vy;
      }
      ColumnValueAt(vx, MinReal(vx));
      ColumnValueAt(vx, MaxReal(vx));
      ColumnValueAt(vy, MinReal(vy));
      ColumnValueAt(vy, MaxReal(vy));
    }
  }

  lemma ColumnValueAt(vs: seq<real>, v: real)
    requires v in vs
    ensures exists i :: 0 <= i < |vs| && vs[i] == v
  {
  }

  function Firsts(points: seq<(Option<real>, Option<real>)>): (r: seq<Option<real>>)
    ensures |r| == |points| && forall i :: 0 <= i < |points| ==> r[i] == points[i].0
  {
    seq(|points|, i requires 0 <= i < |points| => points[i].0)
  }

  function Seconds(points: seq<(Option<real>, Option<real>)>): (r: seq<Option<real>>)
    ensures |r| == |points| && forall i :: 0 <= i < |points| ==> r[i] == points[i].1
  {
    seq(|points|, i requires 0 <= i < |points| => points[i].1)
  }

  /** `GeoJSON2GML.__bounding_box_from_coordinates(points)`: the same over a
      list of corner points, which are already pairs. */
  function UnionBox(points: seq<(Option<real>, Option<real>)>): Result<Corners> {
    if points == [] then Err(UnpackNothing)
    else
      var minx :- PyMin(Firsts(points));
      var miny :- PyMin(Seconds(points));
      var maxx :- PyMax(Firsts(points));
      var maxy :- PyMax(Seconds(points));
      Ok(Corners(minx, miny, maxx, maxy))
  }

  /** The two corner points each box adds to the list, in order. */
  function CornerPoints(boxes: seq<Corners>): (points: seq<(Option<real>, Option<real>)>)
    ensures |points| == 2 * |boxes|
    ensures forall i :: 0 <= i < |boxes| ==>
      points[2 * i] == (boxes[i].minx, boxes[i].miny) && points[2 * i + 1] == (boxes[i].maxx, boxes[i].maxy)
  {
    seq(2 * |boxes|, j requires 0 <= j < 2 * |boxes| =>
      if j % 2 == 0 then (boxes[j / 2].minx, boxes[j / 2].miny) else (boxes[j / 2].maxx, boxes[j / 2].maxy))
  }

  predicate Complete(c: Corners) {
    c.minx.Some? && c.miny.Some? && c.maxx.Some? && c.maxy.Some?
  }

  /** Without boxes there is nothing to unpack. */
  lemma UnionBoxEmpty()
    ensures UnionBox(CornerPoints([])) == Err(UnpackNothing)
  {
  }

  /** A box without y values among the boxes cannot be compared with the
      others' numbers. */
  lemma UnionBoxMissingY(boxes: seq<Corners>, i: int)
    requires 0 <= i < |boxes| && boxes[i].miny.None?
    ensures UnionBox(CornerPoints(boxes)) == Err(NoneComparison)
  {
    var points := CornerPoints(boxes);
    var xs := Firsts(points);
    var ys := Seconds(points);
    assert |points| >= 2 && points != [];
    assert ys[2 * i] == None;
    assert !NoNone(ys);
    assert PyMin(ys) == Err(NoneComparison);
    assert PyMin(xs).Err? ==> PyMin(xs) == Err(NoneComparison);
  }

  /** `u` is complete and holds every one of `boxes`. */
  predicate HoldsAll(u: Corners, boxes: seq<Corners>) {
    Complete(u) &&
    forall i :: 0 <= i < |boxes| ==>
      Complete(boxes[i]) &&
      u.minx.value <= boxes[i].minx.value && u.miny.value <= boxes[i].miny.value &&
      boxes[i].maxx.value <= u.maxx.value && boxes[i].maxy.value <= u.maxy.value
  }

  /** Each side of `u` is the x (or y) of some box's corner. */
  predicate SidesAreCorners(u: Corners, boxes: seq<Corners>) {
    (exists i :: 0 <= i < |boxes| && (u.minx == boxes[i].minx || u.minx == boxes[i].maxx)) &&
    (exists i :: 0 <= i < |boxes| && (u.miny == boxes[i].miny || u.miny == boxes[i].maxy)) &&
    (exists i :: 0 <= i < |boxes| && (u.maxx == boxes[i].minx || u.maxx == boxes[i].maxx)) &&
    (exists i :: 0 <= i < |boxes| && (u.maxy == boxes[i].miny || u.maxy == boxes[i].maxy))
  }

  /** Each side of `u` is that same side of some box. */
  predicate SidesAreSides(u: Corners, boxes: seq<Corners>) {
    (exists i :: 0 <= i < |boxes| && u.minx == boxes[i].minx) &&
    (exists i :: 0 <= i < |boxes| && u.miny == boxes[i].miny) &&
    (exists i :: 0 <= i < |boxes| && u.maxx == boxes[i].maxx) &&
    (exists i :: 0 <= i < |boxes| && u.maxy == boxes[i].maxy)
  }

  /** The union of complete boxes is complete and holds every one of them,
      and each of its sides is a coordinate of some box's corner: it is the
      least and greatest of the corners' x and y values. */
  lemma UnionBoxHolds(boxes: seq<Corners>)
    requires boxes != [] && forall i :: 0 <= i < |boxes| ==> Complete(boxes[i])
    ensures UnionBox(CornerPoints(boxes)).Ok?
    ensures HoldsAll(UnionBox(CornerPoints(boxes)).value, boxes)
    ensures SidesAreCorners(UnionBox(CornerPoints(boxes)).value, boxes)
  {
    var points := CornerPoints(boxes);
    var vx, vy := UnionBoxContains(boxes);
    CornerOf(boxes, vx, vy, UnionBox(points).value);
  }

  /** Sides drawn from the corners' x and y values are corner coordinates. */
  lemma CornerOf(boxes: seq<Corners>, vx: seq<real>, vy: seq<real>, u: Corners)
    requires |vx| == |vy| == 2 * |boxes|
    requires forall i :: 0 <= i < |boxes| ==>
      Some(vx[2 * i]) == boxes[i].minx && Some(vx[2 * i + 1]) == boxes[i].maxx &&
      Some(vy[2 * i]) == boxes[i].miny && Some(vy[2 * i + 1]) == boxes[i].maxy
    requires Complete(u)
    requires u.minx.value in vx && u.maxx.value in vx && u.miny.value in vy && u.maxy.value in vy
    ensures SidesAreCorners(u, boxes)
  {
    var i1 := XOfCorner(boxes, vx, u.minx.value);
    var i2 := YOfCorner(boxes, vy, u.miny.value);
    var i3 := XOfCorner(boxes, vx, u.maxx.value);
    var i4 := YOfCorner(boxes, vy, u.maxy.value);
  }

  /** An x value listed two per box is one box's `minx` or `maxx`. */
  lemma XOfCorner(boxes: seq<Corners>, vx: seq<real>, v: real) returns (i: int)
    requires |vx| == 2 * |boxes|
    requires forall i :: 0 <= i < |boxes| ==>
      Some(vx[2 * i]) == boxes[i].minx && Some(vx[2 * i + 1]) == boxes[i].maxx
    requires v in vx
    ensures 0 <= i < |boxes| && (Some(v) == boxes[i].minx || Some(v) == boxes[i].maxx)
  {
    var j :| 0 <= j < |vx| && vx[j] == v;
    i := j / 2;
    assert j == 2 * i || j == 2 * i + 1;
  }

  /** A y value listed two per box is one box's `miny` or `maxy`. */
  lemma YOfCorner(boxes: seq<Corners>, vy: seq<real>, v: real) returns (i: int)
    requires |vy| == 2 * |boxes|
    requires forall i :: 0 <= i < |boxes| ==>
      Some(vy[2 * i]) == boxes[i].miny && Some(vy[2 * i + 1]) == boxes[i].maxy
    requires v in vy
    ensures 0 <= i < |boxes| && (Some(v) == boxes[i].miny || Some(v) == boxes[i].maxy)
  {
    var j :| 0 <= j < |vy| && vy[j] == v;
    i := j / 2;
    assert j == 2 * i || j == 2 * i + 1;
  }

  /** A box whose sides are in order: `minx <= maxx` and `miny <= maxy`. */
  predicate Ordered(c: Corners) {
    Complete(c) && c.minx.value <= c.maxx.value && c.miny.value <= c.maxy.value
  }

  /** A bounding box with all four sides has them in order: it came from
      an even list of numbers, and its first point lies inside it. */
  lemma CompleteBoxIsOrdered(flat: seq<real>)
    requires BoundingBoxFromCoordinates(flat).Ok? && Complete(BoundingBoxFromCoordinates(flat).value)
    ensures Ordered(BoundingBoxFromCoordinates(flat).value)
  {
    BoundingBoxCases(flat);
    if |flat| >= 2 && |flat| % 2 == 0 {
      assert InBox(BoundingBoxFromCoordinates(flat).value, flat[0], flat[1]);
    }
  }

  /** For ordered boxes each side of the union is that same side of some
      box: the union is the least box holding them all. */
  lemma UnionBoxTight(boxes: seq<Corners>)
    requires boxes != [] && forall i :: 0 <= i < |boxes| ==> Ordered(boxes[i])
    ensures UnionBox(CornerPoints(boxes)).Ok?
    ensures SidesAreSides(UnionBox(CornerPoints(boxes)).value, boxes)
  {
    UnionBoxHolds(boxes);
    var u := UnionBox(CornerPoints(boxes)).value;
    var i1 :| 0 <= i1 < |boxes| && (u.minx == boxes[i1].minx || u.minx == boxes[i1].maxx);
    Squeezed(u.minx, boxes[i1].minx, boxes[i1].maxx);
    var i2 :| 0 <= i2 < |boxes| && (u.miny == boxes[i2].miny || u.miny == boxes[i2].maxy);
    Squeezed(u.miny, boxes[i2].miny, boxes[i2].maxy);
    var i3 :| 0 <= i3 < |boxes| && (u.maxx == boxes[i3].minx || u.maxx == boxes[i3].maxx);
    Squeezed(u.maxx, boxes[i3].maxx, boxes[i3].minx);
    var i4 :| 0 <= i4 < |boxes| && (u.maxy == boxes[i4].miny || u.maxy == boxes[i4].maxy);
    Squeezed(u.maxy, boxes[i4].maxy, boxes[i4].miny);
  }

  /** A side that is one of a box's two coordinates and lies beyond the
      nearer one is the nearer one. */
  lemma Squeezed(side: Option<real>, near: Option<real>, far: Option<real>)
    requires side.Some? && near.Some? && far.Some?
    requires side == near || side == far
    requires (side.value <= near.value <= far.value) || (far.value <= near.value <= side.value)
    ensures side == near
  {
  }

  /** The union's sides are the least and greatest of the corners' x and y
      values, which lie two per box. */
  lemma UnionBoxContains(boxes: seq<Corners>) returns (vx: seq<real>, vy: seq<real>)
    requires boxes != [] && forall i :: 0 <= i < |boxes| ==> Complete(boxes[i])
    ensures UnionBox(CornerPoints(boxes)).Ok?
    ensures HoldsAll(UnionBox(CornerPoints(boxes)).value, boxes)
    ensures |vx| == |vy| == 2 * |boxes|
    ensures forall i :: 0 <= i < |boxes| ==>
      Some(vx[2 * i]) == boxes[i].minx && Some(vx[2 * i + 1]) == boxes[i].maxx &&
      Some(vy[2 * i]) == boxes[i].miny && Some(vy[2 * i + 1]) == boxes[i].maxy
    ensures var u := UnionBox(CornerPoints(boxes)).value;
      Complete(u) &&
      u.minx.value in vx && u.maxx.value in vx && u.miny.value in vy && u.maxy.value in vy
  {
    var points := CornerPoints(boxes);
    vx, vy := CornerValues(boxes);
    UnionBoxOfValues(points, vx, vy);
    var u := UnionBox(points).value;
    forall i | 0 <= i < |boxes|
      ensures u.minx.value <= boxes[i].minx.value && u.miny.value <= boxes[i].miny.value
      ensures boxes[i].maxx.value <= u.maxx.value && boxes[i].maxy.value <= u.maxy.value
    {
      assert vx[2 * i] in vx && vx[2 * i + 1] in vx;
      assert vy[2 * i] in vy && vy[2 * i + 1] in vy;
    }
  }

  /** The corners' x and y values, all present, two per box. */
  lemma CornerValues(boxes: seq<Corners>) returns (vx: seq<real>, vy: seq<real>)
    requires forall i :: 0 <= i < |boxes| ==> Complete(boxes[i])
    ensures NoNone(Firsts(CornerPoints(boxes))) && NoNone(Seconds(CornerPoints(boxes)))
    ensures vx == Values(Firsts(CornerPoints(boxes))) && vy == Values(Seconds(CornerPoints(boxes)))
    ensures |vx| == |vy| == 2 * |boxes|
    ensures forall i :: 0 <= i < |boxes| ==>
      Some(vx[2 * i]) == boxes[i].minx && Some(vx[2 * i + 1]) == boxes[i].maxx &&
      Some(vy[2 * i]) == boxes[i].miny && Some(vy[2 * i + 1]) == boxes[i].maxy
  {
    var points := CornerPoints(boxes);
    var xs := Firsts(points);
    var ys := Seconds(points);
    forall j | 0 <= j < |points|
      ensures xs[j].Some? && ys[j].Some?
    {
      var k := j / 2;
      assert j == 2 * k || j == 2 * k + 1;
    }
    vx := Values(xs);
    vy := Values(ys);
  }

  /** The union of corner points without missing values: the least and
      greatest x and y. */
  lemma UnionBoxOfValues(points: seq<(Option<real>, Option<real>)>, vx: seq<real>, vy: seq<real>)
    requires |points| >= 2 && NoNone(Firsts(points)) && NoNone(Seconds(points))
    requires vx == Values(Firsts(points)) && vy == Values(Seconds(points))
    ensures vx != [] && vy != []
    ensures UnionBox(points) ==
      Ok(Corners(Some(MinReal(vx)), Some(MinReal(vy)), Some(MaxReal(vx)), Some(MaxReal(vy))))
  {
  }

  // ---------------------------------------------------------------------------
  // Swapping (x, y) to (y, x)

  function Reverse<T>(s: seq<T>): (r: seq<T>)
    ensures |r| == |s| && forall i :: 0 <= i < |s| ==> r[i] == s[|s| - 1 - i]
    decreases |s|
  {
    if s == [] then [] else Reverse(s[1..]) + [s[0]]
  }

  lemma ReverseReverse<T>(s: seq<T>)
    ensures Reverse(Reverse(s)) == s
  {
  }

  /** Adjacent numbers exchanged: (x0, y0, x1, y1, ...) to (y0, x0, y1, x1, ...);
      an unpaired last number stays where it is. */
  function SwapAdjacent(flat: seq<real>): (r: seq<real>)
    ensures |r| == |flat|
    ensures forall i :: 0 <= i < |flat| / 2 ==> r[2 * i] == flat[2 * i + 1] && r[2 * i + 1] == flat[2 * i]
  {
    seq(|flat|, j requires 0 <= j < |flat| =>
      if j % 2 == 1 then flat[j - 1] else if j + 1 < |flat| then flat[j + 1] else flat[j])
  }

  /** Swapping twice gives the coordinates back. */
  lemma SwapAdjacentInvolution(flat: seq<real>)
    ensures SwapAdjacent(SwapAdjacent(flat)) == flat
  {
  }

  /** Each pair reversed, the results joined. */
  function ReversedPairs(pairs: seq<seq<Option<real>>>): seq<Option<real>>
    decreases |pairs|
  {
    if pairs == [] then [] else Reverse(pairs[0]) + ReversedPairs(pairs[1..])
  }

  /** `Polygon.write_feature_the_geom_gml`'s pos list: the flat list in
      pairs, each pair reversed, flattened again; a padding None stays in. */
  function PosList(flat: seq<real>): seq<Option<real>> {
    ReversedPairs(Pairs(flat))
  }

  lemma PosListCons(flat: seq<real>)
    requires |flat| >= 2
    ensures PosList(flat) == [Some(flat[1]), Some(flat[0])] + PosList(flat[2..])
  {
    assert Lift(flat)[2..] == Lift(flat[2..]);
    assert Lift(flat)[..2] == [Some(flat[0]), Some(flat[1])];
    assert Pairs(flat) == [Lift(flat)[..2]] + Pairs(flat[2..]);
    assert Pairs(flat)[1..] == Pairs(flat[2..]);
  }

  /** Swapping starts with the first pair exchanged. */
  lemma SwapAdjacentCons(flat: seq<real>)
    requires |flat| >= 2 && |flat| % 2 == 0
    ensures SwapAdjacent(flat) == [flat[1], flat[0]] + SwapAdjacent(flat[2..])
  {
    var tail := flat[2..];
    var a := [flat[1], flat[0]] + SwapAdjacent(tail);
    forall k | 0 <= k < |flat| / 2
      ensures a[2 * k] == flat[2 * k + 1] && a[2 * k + 1] == flat[2 * k]
    {
      if k > 0 {
        var k' := k - 1;
        assert a[2 * k] == SwapAdjacent(tail)[2 * k'] == tail[2 * k' + 1];
        assert a[2 * k + 1] == SwapAdjacent(tail)[2 * k' + 1] == tail[2 * k'];
      }
    }
    PairwiseSwapped(a, flat);
  }

  /** For an even number of coordinates the pos list is the coordinates with
      each x and y exchanged; an odd number gains a None before the last
      number. */
  lemma {:induction false} PosListSwaps(flat: seq<real>)
    ensures |flat| % 2 == 0 ==> PosList(flat) == Lift(SwapAdjacent(flat))
    ensures |flat| % 2 == 1 ==>
      |PosList(flat)| == |flat| + 1 && PosList(flat)[|flat| - 1] == None && PosList(flat)[|flat|] == Some(flat[|flat| - 1])
    decreases |flat|
  {
    if |flat| >= 2 {
      PosListSwaps(flat[2..]);
      PosListCons(flat);
      if |flat| % 2 == 0 {
        var rest := SwapAdjacent(flat[2..]);
        SwapAdjacentCons(flat);
        assert Lift([flat[1], flat[0]] + rest) == [Some(flat[1]), Some(flat[0])] + Lift(rest);
      }
    } else if |flat| == 1 {
      assert Pairs(flat) == [Lift(flat) + Fill(None, 1)];
      assert Lift(flat) + Fill(None, 1) == [Some(flat[0]), None];
      var pairs := Pairs(flat);
      assert pairs[0] == [Some(flat[0]), None] && pairs[1..] == [];
      assert Reverse([Some(flat[0]), None]) == [None, Some(flat[0])];
      assert PosList(flat) == Reverse(pairs[0]) + ReversedPairs(pairs[1..]);
    }
  }

  /** `[list(reversed(l)) for l in ring]`: each position of a ring reversed.
      The ring must be a list and each of its items a list. */
  function ReverseEach(ring: Nested): Result<Nested> {
    if ring.Num? then Err(TypeError("'float' object is not iterable"))
    else if exists i :: 0 <= i < |ring.xs| && ring.xs[i].Num? then Err(TypeError("'float' object is not reversible"))
    else Ok(Items(seq(|ring.xs|, i requires 0 <= i < |ring.xs| => Items(Reverse(ring.xs[i].xs)))))
  }

  /** Reversing each position twice gives the ring back. */
  lemma ReverseEachInvolution(ring: Nested)
    requires ReverseEach(ring).Ok?
    ensures ReverseEach(ReverseEach(ring).value) == Ok(ring)
  {
    var once := ReverseEach(ring).value;
    assert forall i :: 0 <= i < |once.xs| ==> once.xs[i] == Items(Reverse(ring.xs[i].xs));
    var twice := ReverseEach(once).value;
    assert |twice.xs| == |ring.xs|;
    forall i | 0 <= i < |ring.xs|
      ensures twice.xs[i] == ring.xs[i]
    {
      assert ring.xs[i].Items?;
      ReverseReverse(ring.xs[i].xs);
    }
    assert twice.xs == ring.xs;
  }

  /** On a ring of (x, y) positions each reversed position is the (y, x)
      position. */
  lemma ReverseEachRing(ring: Nested)
    requires IsRing(ring)
    ensures ReverseEach(ring).Ok?
    ensures var once := ReverseEach(ring).value;
      once.Items? && |once.xs| == |ring.xs| &&
      forall i :: 0 <= i < |once.xs| ==>
        IsPosition(once.xs[i]) && once.xs[i].xs[0] == ring.xs[i].xs[1] && once.xs[i].xs[1] == ring.xs[i].xs[0]
  {
    assert !exists i :: 0 <= i < |ring.xs| && ring.xs[i].Num? by {
      forall i | 0 <= i < |ring.xs|
        ensures !ring.xs[i].Num?
      {
        assert IsPosition(ring.xs[i]);
      }
    }
  }

  /** On a ring of (x, y) positions the reversal is the (y, x) swap of its
      coordinates. */
  lemma ReverseEachSwapsRing(ring: Nested)
    requires IsRing(ring)
    ensures ReverseEach(ring).Ok?
    ensures |Flatten(ring)| % 2 == 0
    ensures Flatten(ReverseEach(ring).value) == SwapAdjacent(Flatten(ring))
  {
    ReverseEachRing(ring);
    var ps := ring.xs;
    var qs := ReverseEach(ring).value.xs;
    FlattenItems(ps);
    FlattenItems(qs);
    FlattenRing(ps);
    FlattenRing(qs);
    var a := FlattenSeq(qs);
    var flat := FlattenSeq(ps);
    forall k | 0 <= k < |ps|
      ensures a[2 * k] == flat[2 * k + 1] && a[2 * k + 1] == flat[2 * k]
    {
      assert qs[k].xs[0] == ps[k].xs[1] && qs[k].xs[1] == ps[k].xs[0];
    }
    PairwiseSwapped(a, flat);
  }

  /** A sequence holding each adjacent pair of `flat` exchanged is
      `SwapAdjacent(flat)`. */
  lemma PairwiseSwapped(a: seq<real>, flat: seq<real>)
    requires |a| == |flat| && |flat| % 2 == 0
    requires forall k :: 0 <= k < |flat| / 2 ==> a[2 * k] == flat[2 * k + 1] && a[2 * k + 1] == flat[2 * k]
    ensures a == SwapAdjacent(flat)
  {
    var b := SwapAdjacent(flat);
    forall j | 0 <= j < |a|
      ensures a[j] == b[j]
    {
      var k := j / 2;
      assert 0 <= k < |flat| / 2;
      assert a[2 * k] == b[2 * k] && a[2 * k + 1] == b[2 * k + 1];
      assert j == 2 * k || j == 2 * k + 1;
    }
  }
}
