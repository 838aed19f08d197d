/** `GeoJSON2GML`: turns the features of a GeoJSON feature collection into
    WFS 2.0 feature elements. Each Polygon or MultiPolygon feature gets an
    envelope (its bounding box, y before x), its geometry with every (x, y)
    written as (y, x), a `gml:id` from its first id-like property, and one
    element per property. The union of all feature boxes is kept as the
    collection's bounding box. Converting a MultiPolygon rewrites the
    exterior rings of the input collection in place. XML itself is not
    modelled: an element is the datatype of what is written into it. */
module Gml {
  import opened Wrappers
  import opened PyText
  import opened GmlCoords

  const Namespace := "test"

  /** The id-like property names: the first property, in dictionary order,
      whose lower-cased name is one of these gives the id. */
  const GidNames: seq<string> := ["fid", "gid", "oid", "objectid", "id"]

  const NoIdMessage := "Unable to find a unique feature id in the dataset. May be one of: fid, gid, oid, objectid, id"
  const NoGeometryMessage := "Unable to determine geometry for feature: "
  const NoBboxMessage := "Features bounding box hasn't been calculated yet."

  /** A property value: None, or the text `str(value)` gives for it. */
  type PropValue = Option<string>

  /** A GeoJSON feature as a dictionary: its geometry's type and
      coordinates, and its properties in dictionary order (None when the
      feature has `"properties": null`). */
  datatype GeoFeature = GeoFeature(geometryType: string, coordinates: Nested, properties: Option<seq<(string, PropValue)>>)

  /** `__get_feature_type_name`: the namespaced, lower-cased type name. */
  function TypeName(featureTypeName: string): string {
    Namespace + ":" + Lower(featureTypeName)
  }

  // ---------------------------------------------------------------------------
  // Feature ids and attributes

  /** The position of the first property with an id-like name, or the
      number of properties when there is none. */
  function FirstIdIndex(props: seq<(string, PropValue)>): (k: nat)
    ensures k <= |props|
    ensures forall j :: 0 <= j < k ==> Lower(props[j].0) !in GidNames
    ensures k < |props| ==> Lower(props[k].0) in GidNames
    decreases |props|
  {
    if props == [] then 0
    else if Lower(props[0].0) in GidNames then 0
    else 1 + FirstIdIndex(props[1..])
  }

  /** `"{}".format(value)`. */
  function Str(v: PropValue): string {
    if v.None? then "None" else v.value
  }

  /** `__get_feature_id`: the value of the first id-like property. */
  function FeatureId(properties: Option<seq<(string, PropValue)>>): Result<string> {
    if properties.None? then Err(AttributeError("items"))
    else
      var k := FirstIdIndex(properties.value);
      if k == |properties.value| then Err(GeoServerlessError(NoIdMessage))
      else Ok(Str(properties.value[k].1))
  }

  /** The id comes from the first property, in dictionary order, whose name
      is id-like in any letter case; there is none exactly when no name is;
      a feature without a properties dictionary has no `items`. */
  lemma FeatureIdFirstMatch(properties: Option<seq<(string, PropValue)>>)
    ensures properties.None? ==> FeatureId(properties) == Err(AttributeError("items"))
    ensures properties.Some? ==>
      var ps := properties.value;
      (FeatureId(properties).Err? <==> forall j :: 0 <= j < |ps| ==> Lower(ps[j].0) !in GidNames) &&
      forall k :: (0 <= k < |ps| && Lower(ps[k].0) in GidNames &&
                   (forall j :: 0 <= j < k ==> Lower(ps[j].0) !in GidNames)) ==>
        FeatureId(properties) == Ok(Str(ps[k].1))
  {
    if properties.Some? {
      var ps := properties.value;
      var k := FirstIdIndex(ps);
      forall k' | 0 <= k' < |ps| && Lower(ps[k'].0) in GidNames && (forall j :: 0 <= j < k' ==> Lower(ps[j].0) !in GidNames)
        ensures k' == k
      {
      }
    }
  }

  /** `__write_feature_attributes`: one namespaced element per property, in
      order, holding its text, or nothing for None. */
  function Attributes(props: seq<(string, PropValue)>): (r: seq<(string, string)>)
    ensures |r| == |props|
    ensures forall i :: 0 <= i < |props| ==>
      r[i].0 == Namespace + ":" + props[i].0 &&
      r[i].1 == (if props[i].1.None? then "" else props[i].1.value)
  {
    seq(|props|, i requires 0 <= i < |props| => (Namespace + ":" + props[i].0, if props[i].1.None? then "" else props[i].1.value))
  }

  // ---------------------------------------------------------------------------
  // What is written

  /** The two corners of an envelope, each written "y x". */
  datatype Envelope = Envelope(lowerCorner: (Option<real>, Option<real>), upperCorner: (Option<real>, Option<real>))

  /** `write_feature_envelope_gml`: the box's corners with y first. */
  function EnvelopeOf(c: Corners): Envelope {
    Envelope((c.miny, c.minx), (c.maxy, c.maxx))
  }

  /** One polygon of a multi-surface: its exterior pos list and one pos list
      per interior ring. */
  datatype SurfaceMember = SurfaceMember(exterior: seq<real>, interiors: seq<seq<real>>)

  /** A Polygon's single pos list, or a MultiPolygon's surface members. */
  datatype GeomXml = PolygonXml(posList: seq<Option<real>>) | MultiSurfaceXml(members: seq<SurfaceMember>)

  /** A feature element: its tag, `gml:id`, envelope, geometry and
      attribute elements. */
  datatype FeatureElement = FeatureElement(tag: string, gmlId: string, envelope: Envelope, geometry: GeomXml, attributes: seq<(string, string)>)

  /** What converting one feature gives: its element and its bounding box. */
  datatype Converted = Converted(element: FeatureElement, box: Corners)

  // ---------------------------------------------------------------------------
  // A loop that rewrites the items it visits and stops at the first error

  /** `step` applied to each item in turn: the items as left (those after a
      failure untouched), and the results or the first error. */
  function StepAll<A, B>(step: A -> (A, Result<B>), xs: seq<A>): (r: (seq<A>, Result<seq<B>>))
    ensures |r.0| == |xs|
    ensures r.1.Ok? ==> |r.1.value| == |xs|
    decreases |xs|
  {
    if xs == [] then ([], Ok([]))
    else
      var s := step(xs[0]);
      if s.1.Err? then ([s.0] + xs[1..], Err(s.1.error))
      else
        var rest := StepAll(step, xs[1..]);
        ([s.0] + rest.0, if rest.1.Err? then Err(rest.1.error) else Ok([s.1.value] + rest.1.value))
  }

  /** Stepping through `a + [x]` is stepping through `a` and, when that
      succeeded, then through `x`. */
  lemma {:induction false} StepAllSnoc<A, B>(step: A -> (A, Result<B>), a: seq<A>, x: A)
    requires StepAll(step, a).1.Ok?
    ensures var s := StepAll(step, a);
      StepAll(step, a + [x]) ==
        (s.0 + [step(x).0], if step(x).1.Err? then Err(step(x).1.error) else Ok(s.1.value + [step(x).1.value]))
    decreases |a|
  {
    if a == [] {
      var sx := step(x);
      assert a + [x] == [x] && [x][0] == x && [x][1..] == [];
      assert StepAll(step, a) == ([], Ok([]));
      if sx.1.Err? {
        assert StepAll(step, [x]) == ([sx.0] + [], Err(sx.1.error));
      } else {
        assert StepAll(step, [x]) == ([sx.0] + StepAll(step, []).0, Ok([sx.1.value] + StepAll(step, []).1.value));
        assert [] + [sx.1.value] == [sx.1.value] + [] == [sx.1.value];
      }
      assert [] + [sx.0] == [sx.0] + [] == [sx.0];
    } else {
      var ax := a + [x];
      assert ax[0] == a[0] && ax[1..] == a[1..] + [x];
      StepAllSnoc(step, a[1..], x);
      var head := step(a[0]);
      var rest := StepAll(step, a[1..]);
      assert StepAll(step, a) == ([head.0] + rest.0, Ok([head.1.value] + rest.1.value));
      assert StepAll(step, ax).0 == [head.0] + StepAll(step, ax[1..]).0;
      assert [head.0] + (rest.0 + [step(x).0]) == ([head.0] + rest.0) + [step(x).0];
      if step(x).1.Ok? {
        assert [head.1.value] + (rest.1.value + [step(x).1.value]) == ([head.1.value] + rest.1.value) + [step(x).1.value];
      }
    }
  }

  /** After a failure the remaining items are left as they are. */
  lemma {:induction false} StepAllStop<A, B>(step: A -> (A, Result<B>), a: seq<A>, b: seq<A>)
    requires StepAll(step, a).1.Err?
    ensures StepAll(step, a + b) == (StepAll(step, a).0 + b, StepAll(step, a).1)
    decreases |a|
  {
    var ab := a + b;
    assert ab[0] == a[0] && ab[1..] == a[1..] + b;
    var head := step(a[0]);
    if head.1.Ok? {
      StepAllStop(step, a[1..], b);
      var rest := StepAll(step, a[1..]);
      assert StepAll(step, a) == ([head.0] + rest.0, rest.1);
      assert StepAll(step, ab) == ([head.0] + StepAll(step, ab[1..]).0, StepAll(step, ab[1..]).1);
      assert [head.0] + (rest.0 + b) == ([head.0] + rest.0) + b;
    } else {
      assert StepAll(step, ab) == ([head.0] + ab[1..], Err(head.1.error));
      assert [head.0] + (a[1..] + b) == ([head.0] + a[1..]) + b;
    }
  }

  /** When every step succeeded, item `i` is left and gives what its own
      step does. */
  lemma {:induction false} StepAllEach<A, B>(step: A -> (A, Result<B>), xs: seq<A>)
    requires StepAll(step, xs).1.Ok?
    ensures forall i :: 0 <= i < |xs| ==>
      step(xs[i]).1.Ok? && StepAll(step, xs).0[i] == step(xs[i]).0 && StepAll(step, xs).1.value[i] == step(xs[i]).1.value
    decreases |xs|
  {
    if xs != [] {
      StepAllEach(step, xs[1..]);
      forall i | 1 <= i < |xs|
        ensures step(xs[i]).1.Ok? && StepAll(step, xs).0[i] == step(xs[i]).0 && StepAll(step, xs).1.value[i] == step(xs[i]).1.value
      {
        assert xs[1..][i - 1] == xs[i];
      }
    }
  }

  /** One turn of a loop that runs `step` over `orig` in place: `cur` has
      items before `i` stepped, the rest as they were, and `done` the
      results so far. Item `i` stepped gives the next state, or on failure
      the final one. */
  lemma StepAllTurn<A, B>(step: A -> (A, Result<B>), orig: seq<A>, cur: seq<A>, done: seq<B>, i: nat)
    requires i < |orig| == |cur| && cur[i..] == orig[i..]
    requires StepAll(step, orig[..i]) == (cur[..i], Ok(done))
    ensures var s := step(orig[i]);
      var cur' := cur[i := s.0];
      cur'[i + 1..] == orig[i + 1..] &&
      (s.1.Ok? ==> StepAll(step, orig[..i + 1]) == (cur'[..i + 1], Ok(done + [s.1.value]))) &&
      (s.1.Err? ==> StepAll(step, orig) == (cur', Err(s.1.error)))
  {
    var s := step(orig[i]);
    var cur' := cur[i := s.0];
    assert orig[i] == cur[i];
    StepAllSnoc(step, orig[..i], orig[i]);
    assert orig[..i + 1] == orig[..i] + [orig[i]];
    assert cur'[..i + 1] == cur[..i] + [s.0];
    if s.1.Err? {
      StepAllStopsAt(step, orig, cur', i, s.1.error);
    }
  }

  /** A loop that fails at item `i` leaves the items after `i` as they were. */
  lemma StepAllStopsAt<A, B>(step: A -> (A, Result<B>), orig: seq<A>, cur: seq<A>, i: nat, e: Error)
    requires i < |orig| == |cur| && cur[i + 1..] == orig[i + 1..]
    requires StepAll(step, orig[..i + 1]) == (cur[..i + 1], Err(e))
    ensures StepAll(step, orig) == (cur, Err(e))
  {
    StepAllStop(step, orig[..i + 1], orig[i + 1..]);
    assert orig[..i + 1] + orig[i + 1..] == orig;
    assert cur == cur[..i + 1] + orig[i + 1..];
  }

  /** When every item's step succeeds, so does the whole loop. */
  lemma {:induction false} StepAllAllOk<A, B>(step: A -> (A, Result<B>), xs: seq<A>)
    requires forall i :: 0 <= i < |xs| ==> step(xs[i]).1.Ok?
    ensures StepAll(step, xs).1.Ok?
    decreases |xs|
  {
    if xs != [] {
      assert step(xs[0]).1.Ok?;
      forall i | 0 <= i < |xs[1..]|
        ensures step(xs[1..][i]).1.Ok?
      {
        assert xs[1..][i] == xs[i + 1];
      }
      StepAllAllOk(step, xs[1..]);
    }
  }

  // ---------------------------------------------------------------------------
  // MultiPolygon

  /** `foo[0] = [list(reversed(l)) for l in foo[0]]`: the polygon with its
      exterior ring swapped. */
  function SwapExterior(foo: Nested): Result<Nested> {
    if foo.Num? then Err(TypeError("'float' object is not subscriptable"))
    else if foo.xs == [] then Err(IndexError("list index out of range"))
    else
      var exterior :- ReverseEach(foo.xs[0]);
      Ok(Items([exterior] + foo.xs[1..]))
  }

  /** The pos lists of the interior rings, each swapped on a copy. */
  function Interiors(things: seq<Nested>): (r: Result<seq<seq<real>>>)
    ensures r.Ok? ==> |r.value| == |things|
    decreases |things|
  {
    if things == [] then Ok([])
    else
      var thing :- ReverseEach(things[0]);
      var rest :- Interiors(things[1..]);
      Ok([Flatten(thing)] + rest)
  }

  /** One turn of `write_feature_the_geom_gml`'s loop: the polygon as left
      in the collection, and its surface member. */
  function PolygonStep(foo: Nested): (Nested, Result<SurfaceMember>) {
    var swapped := SwapExterior(foo);
    if swapped.Err? then (foo, Err(swapped.error))
    else
      var foo' := swapped.value;
      var interiors := Interiors(foo'.xs[1..]);
      if interiors.Err? then (foo', Err(interiors.error))
      else (foo', Ok(SurfaceMember(Flatten(foo'.xs[0]), interiors.value)))
  }

  /** The loop over the polygons: the polygons as left, and the surface
      members or the first error. */
  function RunPolygons(polys: seq<Nested>): (seq<Nested>, Result<seq<SurfaceMember>>) {
    StepAll(PolygonStep, polys)
  }

  /** `MultiPolygon.write_feature_the_geom_gml` on the coordinates: the
      coordinates as left, and the surface members. */
  function MultiPolygonRun(coordinates: Nested): (Nested, Result<seq<SurfaceMember>>) {
    if coordinates.Num? then (coordinates, Err(TypeError("'float' object is not iterable")))
    else
      var run := RunPolygons(coordinates.xs);
      (Items(run.0), run.1)
  }

  /** A polygon made of rings of (x, y) positions. */
  predicate IsPolygon(p: Nested) {
    p.Items? && p.xs != [] && forall i :: 0 <= i < |p.xs| ==> IsRing(p.xs[i])
  }

  /** On well-formed polygons every surface member holds its rings' (y, x)
      swapped coordinates, exterior first. */
  lemma RunPolygonsSwaps(polys: seq<Nested>)
    requires forall i :: 0 <= i < |polys| ==> IsPolygon(polys[i])
    ensures RunPolygons(polys).1.Ok?
    ensures forall i :: 0 <= i < |polys| ==>
      (IsPolygon(polys[i]) &&
       var m := RunPolygons(polys).1.value[i];
       m.exterior == SwapAdjacent(Flatten(polys[i].xs[0])) &&
       |m.interiors| == |polys[i].xs| - 1 &&
       forall j :: 1 <= j < |polys[i].xs| ==> m.interiors[j - 1] == SwapAdjacent(Flatten(polys[i].xs[j])))
  {
    forall i | 0 <= i < |polys|
      ensures PolygonStep(polys[i]).1.Ok?
    {
      PolygonStepSwaps(polys[i]);
    }
    StepAllAllOk(PolygonStep, polys);
    StepAllEach(PolygonStep, polys);
    forall i | 0 <= i < |polys|
      ensures var m := RunPolygons(polys).1.value[i];
        m.exterior == SwapAdjacent(Flatten(polys[i].xs[0])) &&
        |m.interiors| == |polys[i].xs| - 1 &&
        forall j :: 1 <= j < |polys[i].xs| ==> m.interiors[j - 1] == SwapAdjacent(Flatten(polys[i].xs[j]))
    {
      PolygonStepSwaps(polys[i]);
    }
  }

  lemma PolygonStepSwaps(p: Nested)
    requires IsPolygon(p)
    ensures PolygonStep(p).1.Ok?
    ensures var m := PolygonStep(p).1.value;
      m.exterior == SwapAdjacent(Flatten(p.xs[0])) &&
      |m.interiors| == |p.xs| - 1 &&
      forall j :: 1 <= j < |p.xs| ==> m.interiors[j - 1] == SwapAdjacent(Flatten(p.xs[j]))
  {
    ReverseEachSwapsRing(p.xs[0]);
    var foo' := SwapExterior(p).value;
    assert foo'.xs[1..] == p.xs[1..];
    InteriorsSwap(p.xs[1..]);
  }

  lemma {:induction false} InteriorsSwap(rings: seq<Nested>)
    requires forall i :: 0 <= i < |rings| ==> IsRing(rings[i])
    ensures Interiors(rings).Ok?
    ensures forall i :: 0 <= i < |rings| ==> Interiors(rings).value[i] == SwapAdjacent(Flatten(rings[i]))
    decreases |rings|
  {
    if rings != [] {
      ReverseEachSwapsRing(rings[0]);
      InteriorsSwap(rings[1..]);
      forall i | 1 <= i < |rings|
        ensures Interiors(rings).value[i] == SwapAdjacent(Flatten(rings[i]))
      {
        assert rings[1..][i - 1] == rings[i];
      }
    }
  }

  /** Converting the same MultiPolygon coordinates a second time, as the
      first conversion left them, restores them: the exterior rings are
      swapped back, and are written in their original order the second
      time, while the interior rings, swapped on copies, are written the
      same way both times. */
  lemma RunPolygonsTwice(polys: seq<Nested>)
    requires RunPolygons(polys).1.Ok?
    ensures RunPolygons(RunPolygons(polys).0).0 == polys
    ensures RunPolygons(RunPolygons(polys).0).1.Ok?
    ensures forall i :: 0 <= i < |polys| ==>
      (polys[i].Items? && polys[i].xs != [] &&
       RunPolygons(RunPolygons(polys).0).1.value[i].exterior == Flatten(polys[i].xs[0]) &&
       RunPolygons(RunPolygons(polys).0).1.value[i].interiors == RunPolygons(polys).1.value[i].interiors)
  {
    var once := RunPolygons(polys);
    StepAllEach(PolygonStep, polys);
    forall i | 0 <= i < |polys|
      ensures PolygonStep(once.0[i]).1.Ok?
    {
      PolygonStepTwice(polys[i]);
    }
    StepAllAllOk(PolygonStep, once.0);
    StepAllEach(PolygonStep, once.0);
    var twice := RunPolygons(once.0);
    forall i | 0 <= i < |polys|
      ensures polys[i].Items? && polys[i].xs != []
      ensures twice.0[i] == polys[i]
      ensures twice.1.value[i].exterior == Flatten(polys[i].xs[0])
      ensures twice.1.value[i].interiors == once.1.value[i].interiors
    {
      PolygonStepTwice(polys[i]);
    }
  }

  lemma PolygonStepTwice(p: Nested)
    requires PolygonStep(p).1.Ok?
    ensures PolygonStep(PolygonStep(p).0).0 == p
    ensures PolygonStep(PolygonStep(p).0).1.Ok?
    ensures PolygonStep(PolygonStep(p).0).1.value.exterior == Flatten(p.xs[0])
    ensures PolygonStep(PolygonStep(p).0).1.value.interiors == PolygonStep(p).1.value.interiors
  {
    var foo' := PolygonStep(p).0;
    ReverseEachInvolution(p.xs[0]);
    assert foo'.xs[1..] == p.xs[1..];
    var foo'' := SwapExterior(foo').value;
    assert foo''.xs == [p.xs[0]] + p.xs[1..];
    assert foo''.xs == p.xs;
  }

  /** The MultiPolygon conversion applied to what it left behind gives the
      original coordinates back. */
  lemma MultiPolygonRunTwice(coordinates: Nested)
    requires MultiPolygonRun(coordinates).1.Ok?
    ensures MultiPolygonRun(MultiPolygonRun(coordinates).0).0 == coordinates
    ensures MultiPolygonRun(MultiPolygonRun(coordinates).0).1.Ok?
  {
    RunPolygonsTwice(coordinates.xs);
  }

  // ---------------------------------------------------------------------------
  // One feature

  /** Converting one feature: the geometry class chosen by type name, the
      coordinates flattened and bounded, the geometry written (which for a
      MultiPolygon rewrites its exterior rings), then the id and the
      attributes. Returns the feature as left and the outcome. */
  function FeatureStep(typeName: string, f: GeoFeature): (GeoFeature, Result<Converted>) {
    if f.geometryType != "Polygon" && f.geometryType != "MultiPolygon" then
      (f, Err(GeoServerlessError(NoGeometryMessage)))
    else
      var pairs := Flatten(f.coordinates);
      var bb := BoundingBoxFromCoordinates(pairs);
      if bb.Err? then (f, Err(bb.error))
      else
        var run: (Nested, Result<GeomXml>) :=
          if f.geometryType == "Polygon" then (f.coordinates, Ok(PolygonXml(PosList(pairs))))
          else
            var m := MultiPolygonRun(f.coordinates);
            (m.0, if m.1.Err? then Err(m.1.error) else Ok(MultiSurfaceXml(m.1.value)));
        var f' := f.(coordinates := run.0);
        if run.1.Err? then (f', Err(run.1.error))
        else
          var id := FeatureId(f.properties);
          if id.Err? then (f', Err(id.error))
          else
            var element := FeatureElement(typeName, typeName + "." + id.value, EnvelopeOf(bb.value),
                                          run.1.value, Attributes(f.properties.value));
            (f', Ok(Converted(element, bb.value)))
  }

  /** What a converted feature's element holds: the type name as its tag,
      the type name and id as its `gml:id`, its box y-first as its
      envelope, and a Polygon's or MultiPolygon's geometry; a Polygon is
      left as it was. */
  lemma FeatureStepConverts(typeName: string, f: GeoFeature)
    requires FeatureStep(typeName, f).1.Ok?
    ensures var c := FeatureStep(typeName, f).1.value;
      var bb := BoundingBoxFromCoordinates(Flatten(f.coordinates));
      bb.Ok? && c.box == bb.value &&
      FeatureId(f.properties).Ok? &&
      c.element.tag == typeName &&
      c.element.gmlId == typeName + "." + FeatureId(f.properties).value &&
      c.element.envelope.lowerCorner == (bb.value.miny, bb.value.minx) &&
      c.element.envelope.upperCorner == (bb.value.maxy, bb.value.maxx) &&
      c.element.attributes == Attributes(f.properties.value) &&
      (f.geometryType == "Polygon" ==>
        c.element.geometry == PolygonXml(PosList(Flatten(f.coordinates))) && FeatureStep(typeName, f).0 == f) &&
      (f.geometryType == "MultiPolygon" ==>
        c.element.geometry == MultiSurfaceXml(MultiPolygonRun(f.coordinates).1.value) &&
        FeatureStep(typeName, f).0 == f.(coordinates := MultiPolygonRun(f.coordinates).0))
  {
  }

  /** The step of `convert`'s loop for a type name. */
  function StepFor(typeName: string): GeoFeature -> (GeoFeature, Result<Converted>) {
    f => FeatureStep(typeName, f)
  }

  /** The steps over a page of features: the features as left, and the
      converted features or the first error. */
  function ConvertSteps(typeName: string, fs: seq<GeoFeature>): (seq<GeoFeature>, Result<seq<Converted>>) {
    StepAll(StepFor(typeName), fs)
  }

  function Elements(cs: seq<Converted>): (r: seq<FeatureElement>)
    ensures |r| == |cs| && forall i :: 0 <= i < |cs| ==> r[i] == cs[i].element
  {
    seq(|cs|, i requires 0 <= i < |cs| => cs[i].element)
  }

  function Boxes(cs: seq<Converted>): (r: seq<Corners>)
    ensures |r| == |cs| && forall i :: 0 <= i < |cs| ==> r[i] == cs[i].box
  {
    seq(|cs|, i requires 0 <= i < |cs| => cs[i].box)
  }

  /** `convert` on a page of features: the elements and the union of their
      boxes, or the first error. */
  function ConvertOutcome(typeName: string, fs: seq<GeoFeature>): Result<(seq<FeatureElement>, Corners)> {
    var steps := ConvertSteps(typeName, fs);
    if steps.1.Err? then Err(steps.1.error)
    else
      var box :- UnionBox(CornerPoints(Boxes(steps.1.value)));
      Ok((Elements(steps.1.value), box))
  }

  /** An empty page cannot be converted: there are no corner points to
      unzip. */
  lemma EmptyPageFails(typeName: string)
    ensures ConvertOutcome(typeName, []) == Err(UnpackNothing)
  {
    UnionBoxEmpty();
  }

  /** Each feature's own bounding box. */
  function FeatureBoxes(fs: seq<GeoFeature>): (r: seq<Corners>)
    requires forall i :: 0 <= i < |fs| ==> BoundingBoxFromCoordinates(Flatten(fs[i].coordinates)).Ok?
    ensures |r| == |fs| &&
      forall i :: 0 <= i < |fs| ==> r[i] == BoundingBoxFromCoordinates(Flatten(fs[i].coordinates)).value
  {
    seq(|fs|, i requires 0 <= i < |fs| => BoundingBoxFromCoordinates(Flatten(fs[i].coordinates)).value)
  }

  /** A converted page has one element per feature, in order, each the
      element of that feature's own conversion, and every feature has a
      bounding box; when every feature's box is complete, the page's box is
      their union: it holds all of them, and each of its sides is that same
      side of some feature's box. */
  lemma ConvertOutcomePerFeature(typeName: string, fs: seq<GeoFeature>)
    requires ConvertOutcome(typeName, fs).Ok?
    ensures var els := ConvertOutcome(typeName, fs).value.0;
      |els| == |fs| &&
      forall i :: 0 <= i < |fs| ==>
        FeatureStep(typeName, fs[i]).1.Ok? && els[i] == FeatureStep(typeName, fs[i]).1.value.element
    ensures forall i :: 0 <= i < |fs| ==> BoundingBoxFromCoordinates(Flatten(fs[i].coordinates)).Ok?
    ensures (forall i :: 0 <= i < |fs| ==> Complete(FeatureBoxes(fs)[i])) ==>
      var box := ConvertOutcome(typeName, fs).value.1;
      HoldsAll(box, FeatureBoxes(fs)) && SidesAreSides(box, FeatureBoxes(fs))
  {
    var cs := ConvertSteps(typeName, fs).1.value;
    StepAllEach(StepFor(typeName), fs);
    forall i | 0 <= i < |fs|
      ensures BoundingBoxFromCoordinates(Flatten(fs[i].coordinates)).Ok?
      ensures cs[i].box == BoundingBoxFromCoordinates(Flatten(fs[i].coordinates)).value
    {
      FeatureStepConverts(typeName, fs[i]);
    }
    var boxes := FeatureBoxes(fs);
    assert Boxes(cs) == boxes;
    if fs != [] && forall i :: 0 <= i < |fs| ==> Complete(boxes[i]) {
      forall i | 0 <= i < |fs|
        ensures Ordered(boxes[i])
      {
        CompleteBoxIsOrdered(Flatten(fs[i].coordinates));
      }
      UnionBoxHolds(boxes);
      UnionBoxTight(boxes);
    }
  }

  /** The end index of `features[:limit]`: a negative limit counts back from
      the end. */
  function SliceEnd(n: nat, limit: Option<int>): (e: nat)
    ensures e <= n
  {
    if limit.None? then n
    else if limit.value >= 0 then (if limit.value < n then limit.value else n)
    else if n + limit.value > 0 then n + limit.value else 0
  }

  // ---------------------------------------------------------------------------
  // The geometry objects and the converter

  /** A `Polygon` (or `MultiPolygon`, which shares these members) with its
      two caches. The coordinates are read once, before any conversion
      rewrites them. */
  class PolygonGeometry {
    const coordinates: Nested
    var coordinatePairs: Option<seq<real>>
    var bbox: Option<Corners>

    /** What is cached is what would be computed. */
    ghost predicate Valid()
      reads this
    {
      (coordinatePairs.Some? ==> coordinatePairs.value == Flatten(coordinates)) &&
      (bbox.Some? ==> BoundingBoxFromCoordinates(Flatten(coordinates)) == Ok(bbox.value))
    }

    constructor (coordinates: Nested)
      ensures Valid()
      ensures this.coordinates == coordinates && coordinatePairs.None? && bbox.None?
    {
      this.coordinates := coordinates;
      coordinatePairs := None;
      bbox := None;
    }

    /** `get_coordinate_pairs`: the flattened coordinates, computed once. */
    method GetCoordinatePairs() returns (pairs: seq<real>)
      requires Valid()
      modifies this`coordinatePairs
      ensures Valid()
      ensures pairs == Flatten(coordinates) && coordinatePairs == Some(pairs)
    {
      if coordinatePairs.None? {
        coordinatePairs := Some(Flatten(coordinates));
      }
      pairs := coordinatePairs.value;
    }

    /** `get_bounding_box`: the box, computed once; a failure leaves the
        box uncached. */
    method GetBoundingBox() returns (r: Result<Corners>)
      requires Valid()
      modifies this`coordinatePairs, this`bbox
      ensures Valid()
      ensures r == BoundingBoxFromCoordinates(Flatten(coordinates))
      ensures bbox == (if r.Ok? then Some(r.value) else None)
      ensures old(bbox).Some? ==> bbox == old(bbox) && coordinatePairs == old(coordinatePairs)
    {
      if bbox.None? {
        var cp := GetCoordinatePairs();
        var box := BoundingBoxFromCoordinates(cp);
        if box.Err? {
          return box;
        }
        bbox := Some(box.value);
      }
      r := Ok(bbox.value);
    }
  }

  class GeoJSON2GML {
    const featureTypeName: string
    /** `geojson_feature_collection["features"]`, rewritten in place. */
    var features: seq<GeoFeature>
    var featuresBbox: Option<Corners>

    constructor (featureTypeName: string, features: seq<GeoFeature>)
      ensures this.featureTypeName == featureTypeName && this.features == features && featuresBbox.None?
    {
      this.featureTypeName := featureTypeName;
      this.features := features;
      featuresBbox := None;
    }

    /** `get_features_bbox`: the box of the last successful conversion. */
    function GetFeaturesBbox(): (r: Result<Corners>)
      reads this
      ensures r.Ok? <==> featuresBbox.Some?
      ensures r.Ok? ==> r.value == featuresBbox.value
      ensures r.Err? ==> r.error == GeoServerlessError(NoBboxMessage)
    {
      if featuresBbox.Some? then Ok(featuresBbox.value) else Err(GeoServerlessError(NoBboxMessage))
    }

    /** The MultiPolygon `write_feature_the_geom_gml` on feature `k`: each
        polygon's exterior ring is swapped in the collection as the loop
        reaches it, so a failure leaves the earlier polygons swapped. */
    method WriteMultiPolygon(k: nat) returns (r: Result<seq<SurfaceMember>>)
      requires k < |features|
      modifies this`features
      ensures var run := MultiPolygonRun(old(features)[k].coordinates);
        features == old(features)[k := old(features)[k].(coordinates := run.0)] && r == run.1
    {
      var f := features[k];
      if f.coordinates.Num? {
        return Err(TypeError("'float' object is not iterable"));
      }
      var polys := f.coordinates.xs;
      ghost var orig := polys;
      assert f.(coordinates := Items(polys)) == f;
      var members: seq<SurfaceMember> := [];
      var idx := 0;
      while idx < |polys|
        invariant 0 <= idx <= |polys| == |orig|
        invariant polys[idx..] == orig[idx..]
        invariant features == old(features)[k := f.(coordinates := Items(polys))]
        invariant StepAll(PolygonStep, orig[..idx]) == (polys[..idx], Ok(members))
      {
        StepAllTurn(PolygonStep, orig, polys, members, idx);
        var step := PolygonStep(polys[idx]);
        polys := polys[idx := step.0];
        features := features[k := f.(coordinates := Items(polys))];
        if step.1.Err? {
          return Err(step.1.error);
        }
        members := members + [step.1.value];
        idx := idx + 1;
      }
      assert polys[..idx] == polys && orig[..idx] == orig;
      r := Ok(members);
    }

    /** One turn of `convert`'s loop, on feature `i`. */
    method ConvertFeature(i: nat) returns (r: Result<Converted>)
      requires i < |features|
      modifies this`features
      ensures var step := StepFor(TypeName(featureTypeName))(old(features)[i]);
        features == old(features)[i := step.0] && r == step.1
    {
      var f := features[i];
      if f.geometryType != "Polygon" && f.geometryType != "MultiPolygon" {
        assert features == features[i := f];
        return Err(GeoServerlessError(NoGeometryMessage));
      }
      var geometry := new PolygonGeometry(f.coordinates);
      var pairs := geometry.GetCoordinatePairs();
      var bb := geometry.GetBoundingBox();
      if bb.Err? {
        assert features == features[i := f];
        return Err(bb.error);
      }
      var xml: GeomXml;
      if f.geometryType == "Polygon" {
        xml := PolygonXml(PosList(pairs));
        assert features == features[i := f];
      } else {
        var members := WriteMultiPolygon(i);
        if members.Err? {
          return Err(members.error);
        }
        xml := MultiSurfaceXml(members.value);
      }
      var id := FeatureId(f.properties);
      if id.Err? {
        return Err(id.error);
      }
      var name := TypeName(featureTypeName);
      var element := FeatureElement(name, name + "." + id.value, EnvelopeOf(bb.value), xml, Attributes(f.properties.value));
      var box := geometry.GetBoundingBox();
      r := Ok(Converted(element, box.value));
    }

    /** Writing position `i` of `a + b`, for `i` within `a`, writes `a`. */
    static lemma UpdateInPrefix<T>(a: seq<T>, b: seq<T>, i: nat, x: T)
      requires i < |a|
      ensures (a + b)[i := x] == a[i := x] + b
    {
    }

    /** The loop of `convert` over the first `end` features. */
    method ConvertPrefix(end: nat) returns (r: Result<seq<Converted>>)
      requires end <= |features|
      modifies this`features
      ensures var steps := ConvertSteps(TypeName(featureTypeName), old(features)[..end]);
        features == steps.0 + old(features)[end..] && r == steps.1
    {
      var name := TypeName(featureTypeName);
      ghost var fs := features[..end];
      ghost var tail := features[end..];
      ghost var cur := fs;
      assert features == cur + tail;
      var done: seq<Converted> := [];
      var i := 0;
      while i < end
        invariant 0 <= i <= end == |cur| == |fs|
        invariant features == cur + tail
        invariant cur[i..] == fs[i..]
        invariant StepAll(StepFor(name), fs[..i]) == (cur[..i], Ok(done))
      {
        ghost var s := StepFor(name)(fs[i]);
        StepAllTurn(StepFor(name), fs, cur, done, i);
        var step := ConvertFeature(i);
        UpdateInPrefix(cur, tail, i, s.0);
        cur := cur[i := s.0];
        if step.Err? {
          return Err(step.error);
        }
        done := done + [step.value];
        i := i + 1;
      }
      assert fs[..i] == fs && cur[..i] == cur;
      r := Ok(done);
    }

    /** `convert(limit)`: the features of `features[:limit]` converted in
        order; on success the union of their boxes is kept and their
        elements returned; on the first failure the features converted so
        far stay as the conversion left them and the box is not set. */
    method Convert(limit: Option<int>) returns (r: Result<seq<FeatureElement>>)
      modifies this`features, this`featuresBbox
      ensures var end := SliceEnd(|old(features)|, limit);
        var fs := old(features)[..end];
        var outcome := ConvertOutcome(TypeName(featureTypeName), fs);
        features == ConvertSteps(TypeName(featureTypeName), fs).0 + old(features)[end..] &&
        (outcome.Ok? ==> r == Ok(outcome.value.0) && featuresBbox == Some(outcome.value.1)) &&
        (outcome.Err? ==> r == Err(outcome.error) && featuresBbox == old(featuresBbox))
    {
      var end := SliceEnd(|features|, limit);
      var done := ConvertPrefix(end);
      if done.Err? {
        return Err(done.error);
      }
      var box := UnionBox(CornerPoints(Boxes(done.value)));
      if box.Err? {
        return Err(box.error);
      }
      featuresBbox := Some(box.value);
      r := Ok(Elements(done.value));
    }
  }
}
