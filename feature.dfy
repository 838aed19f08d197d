/** cogj's GeoJSON records: a `Feature` is a geometry with an optional
    properties dictionary, a `FeatureCollection` an ordered list of features.
    Both compare equal exactly when their `__geo_interface__` dictionaries
    are `==` in Python, where `True == 1` and `False == 0`.
    A shapely geometry is opaque here: only its GeoJSON mapping, a type name
    and a coordinate structure, is seen. */
module Features {
  import opened Wrappers

  /** A JSON-like Python value, as found in properties and in
      `__geo_interface__` dictionaries. */
  datatype Json =
    | JNull
    | JBool(b: bool)
    | JNumber(n: real)
    | JString(s: string)
    | JArray(items: seq<Json>)
    | JObject(fields: map<string, Json>)

  type Properties = map<string, Json>

  /** A shapely geometry, known by its mapping `{"type": ..., "coordinates": ...}`. */
  datatype Shape = Shape(geomType: string, coordinates: Json)

  /** What a feature holds as its geometry: a shape, or any other object with
      a `__geo_interface__`; the only such object in cogj is a Feature. */
  datatype Geometry = ShapeGeometry(shape: Shape) | FeatureGeometry(feature: Feature)

  /** `Feature(geometry, properties=None)`. */
  datatype Feature = Feature(geometry: Geometry, properties: Option<Properties> := None)

  function ShapeInterface(s: Shape): Json {
    JObject(map["type" := JString(s.geomType), "coordinates" := s.coordinates])
  }

  function GeometryInterface(g: Geometry): Json
    decreases g
  {
    match g
    case ShapeGeometry(s) => ShapeInterface(s)
    case FeatureGeometry(f) => FeatureInterface(f)
  }

  function PropertiesJson(p: Option<Properties>): Json {
    if p.None? then JNull else JObject(p.value)
  }

  /** `Feature.__geo_interface__`. */
  function FeatureInterface(f: Feature): Json
    decreases f
  {
    JObject(map["type" := JString("Feature"),
                "geometry" := GeometryInterface(f.geometry),
                "properties" := PropertiesJson(f.properties)])
  }

  // ---------------------------------------------------------------------------
  // Python's `==` on JSON-like values

  /** The value Python's `==` sees: a bool is an int, so `True == 1` and
      `False == 0`; lists compare item by item and dicts key by key. Two
      values are `==` exactly when they agree once every boolean is read as
      its number. */
  function PyValue(j: Json): Json
    decreases j
  {
    match j
    case JBool(b) => JNumber(if b then 1.0 else 0.0)
    case JArray(items) => JArray(seq(|items|, i requires 0 <= i < |items| => PyValue(items[i])))
    case JObject(fields) => JObject(map k | k in fields :: PyValue(fields[k]))
    case _ => j
  }

  /** Python's `==` on JSON-like values. */
  predicate PyEq(a: Json, b: Json) {
    PyValue(a) == PyValue(b)
  }

  /** The value holds no boolean at any depth. */
  predicate BoolFree(j: Json)
    decreases j
  {
    match j
    case JBool(_) => false
    case JArray(items) => forall i :: 0 <= i < |items| ==> BoolFree(items[i])
    case JObject(fields) => forall k :: k in fields ==> BoolFree(fields[k])
    case _ => true
  }

  /** What `==` sees holds no boolean. */
  lemma {:induction false} PyValueIsBoolFree(j: Json)
    ensures BoolFree(PyValue(j))
    decreases j
  {
    match j
    case JArray(items) =>
      forall i | 0 <= i < |items|
        ensures BoolFree(PyValue(j).items[i])
      {
        PyValueIsBoolFree(items[i]);
      }
    case JObject(fields) =>
      forall k | k in fields
        ensures BoolFree(PyValue(j).fields[k])
      {
        PyValueIsBoolFree(fields[k]);
      }
    case _ =>
  }

  /** A value without booleans is seen as itself, so on such values `==` is
      plain structural equality. */
  lemma {:induction false} PyValueKeepsBoolFree(j: Json)
    requires BoolFree(j)
    ensures PyValue(j) == j
    decreases j
  {
    match j
    case JArray(items) =>
      forall i | 0 <= i < |items|
        ensures PyValue(j).items[i] == items[i]
      {
        PyValueKeepsBoolFree(items[i]);
      }
    case JObject(fields) =>
      forall k | k in fields
        ensures PyValue(j).fields[k] == fields[k]
      {
        PyValueKeepsBoolFree(fields[k]);
      }
      assert PyValue(j).fields == fields;
    case _ =>
  }

  /** `==` compares what it sees, and looking twice changes nothing more. */
  lemma PyValueIdempotent(j: Json)
    ensures PyValue(PyValue(j)) == PyValue(j)
  {
    PyValueIsBoolFree(j);
    PyValueKeepsBoolFree(PyValue(j));
  }

  /** The feature `==` sees: every boolean in its coordinates and properties
      read as its number. */
  function PyFeature(f: Feature): Feature
    decreases f
  {
    Feature(PyGeometry(f.geometry), PyProperties(f.properties))
  }

  function PyGeometry(g: Geometry): Geometry
    decreases g
  {
    match g
    case ShapeGeometry(s) => ShapeGeometry(Shape(s.geomType, PyValue(s.coordinates)))
    case FeatureGeometry(f) => FeatureGeometry(PyFeature(f))
  }

  function PyProperties(p: Option<Properties>): Option<Properties> {
    if p.None? then None else Some(map k | k in p.value :: PyValue(p.value[k]))
  }

  /** Reading the booleans as numbers commutes with building the
      representation. */
  lemma {:induction false} PyValueOfFeatureInterface(f: Feature)
    ensures PyValue(FeatureInterface(f)) == FeatureInterface(PyFeature(f))
    decreases f
  {
    PyValueOfGeometryInterface(f.geometry);
    assert PyValue(PropertiesJson(f.properties)) == PropertiesJson(PyProperties(f.properties));
    var m := FeatureInterface(f).fields;
    assert PyValue(FeatureInterface(f)).fields == FeatureInterface(PyFeature(f)).fields by {
      assert PyValue(FeatureInterface(f)).fields.Keys == m.Keys;
      assert PyValue(m["type"]) == JString("Feature");
    }
  }

  lemma {:induction false} PyValueOfGeometryInterface(g: Geometry)
    ensures PyValue(GeometryInterface(g)) == GeometryInterface(PyGeometry(g))
    decreases g
  {
    match g
    case ShapeGeometry(s) =>
      var m := ShapeInterface(s).fields;
      assert PyValue(ShapeInterface(s)).fields == GeometryInterface(PyGeometry(g)).fields by {
        assert PyValue(ShapeInterface(s)).fields.Keys == m.Keys;
        assert PyValue(m["type"]) == JString(s.geomType);
      }
    case FeatureGeometry(f) =>
      PyValueOfFeatureInterface(f);
  }

  /** `Feature.__eq__`: the representations are `==`. */
  predicate FeatureEquals(a: Feature, b: Feature) {
    PyEq(FeatureInterface(a), FeatureInterface(b))
  }

  /** Comparing representations is comparing features as Python sees them:
      nothing is lost in the representation, so two features are equal
      exactly when they have the same geometry and properties once every
      boolean is read as its number. */
  lemma FeatureEqualsIffSame(a: Feature, b: Feature)
    ensures FeatureEquals(a, b) <==> PyFeature(a) == PyFeature(b)
  {
    PyValueOfFeatureInterface(a);
    PyValueOfFeatureInterface(b);
    if FeatureEquals(a, b) {
      FeatureInterfaceInjective(PyFeature(a), PyFeature(b));
    }
  }

  /** A property `True` equals a property `1`: the features are different
      values but `==` says they are equal. */
  lemma TrueEqualsOne(g: Geometry)
    ensures Feature(g, Some(map["a" := JBool(true)])) != Feature(g, Some(map["a" := JNumber(1.0)]))
    ensures FeatureEquals(Feature(g, Some(map["a" := JBool(true)])), Feature(g, Some(map["a" := JNumber(1.0)])))
  {
    var a := Feature(g, Some(map["a" := JBool(true)]));
    var b := Feature(g, Some(map["a" := JNumber(1.0)]));
    assert a.properties.value["a"] != b.properties.value["a"];
    assert PyProperties(a.properties) == PyProperties(b.properties) by {
      assert PyProperties(a.properties).value.Keys == {"a"} == PyProperties(b.properties).value.Keys;
      assert PyProperties(a.properties).value["a"] == PyValue(JBool(true)) == JNumber(1.0);
      assert PyProperties(b.properties).value["a"] == PyValue(JNumber(1.0)) == JNumber(1.0);
      assert PyProperties(a.properties).value == PyProperties(b.properties).value;
    }
    FeatureEqualsIffSame(a, b);
  }

  lemma {:induction false} FeatureInterfaceInjective(a: Feature, b: Feature)
    requires FeatureInterface(a) == FeatureInterface(b)
    ensures a == b
    decreases a
  {
    var ma := FeatureInterface(a).fields;
    var mb := FeatureInterface(b).fields;
    assert ma["geometry"] == mb["geometry"];
    assert ma["properties"] == mb["properties"];
    GeometryInterfaceInjective(a.geometry, b.geometry);
  }

  lemma {:induction false} GeometryInterfaceInjective(g: Geometry, h: Geometry)
    requires GeometryInterface(g) == GeometryInterface(h)
    ensures g == h
    decreases g
  {
    match g
    case ShapeGeometry(s) =>
      if h.ShapeGeometry? {
        assert GeometryInterface(g).fields["type"] == GeometryInterface(h).fields["type"];
        assert GeometryInterface(g).fields["coordinates"] == GeometryInterface(h).fields["coordinates"];
      } else {
        ShapeIsNoFeature(s, h.feature);
      }
    case FeatureGeometry(f) =>
      if h.FeatureGeometry? {
        FeatureInterfaceInjective(f, h.feature);
      } else {
        ShapeIsNoFeature(h.shape, f);
      }
  }

  /** A shape's mapping never looks like a feature's representation: it has
      coordinates where a feature has a geometry. */
  lemma ShapeIsNoFeature(s: Shape, f: Feature)
    ensures ShapeInterface(s) != FeatureInterface(f)
  {
    assert "coordinates" in ShapeInterface(s).fields;
  }

  /** `Feature(g)` has the geometry it was given and no properties. */
  lemma NewFeatureHasNoProperties(g: Geometry)
    ensures Feature(g).geometry == g && Feature(g).properties.None?
    ensures PropertiesJson(Feature(g).properties) == JNull
  {
  }

  // ---------------------------------------------------------------------------
  // FeatureCollection

  /** An object handed to `FeatureCollection`: a Feature or a shapely geometry. */
  datatype GeoObject = FeatureObject(feature: Feature) | ShapeObject(shape: Shape)

  datatype FeatureCollection = FeatureCollection(features: seq<Feature>)

  /** The geometry `Feature(o)` would hold: the object itself. */
  function AsGeometry(o: GeoObject): Geometry {
    if o.FeatureObject? then FeatureGeometry(o.feature) else ShapeGeometry(o.shape)
  }

  predicate AllFeatures(objects: seq<GeoObject>) {
    forall i :: 0 <= i < |objects| ==> objects[i].FeatureObject?
  }

  /** The objects a list of features is, read back as collection input. */
  function AsObjects(fs: seq<Feature>): (r: seq<GeoObject>)
    ensures |r| == |fs| && AllFeatures(r)
    ensures forall i :: 0 <= i < |fs| ==> r[i] == FeatureObject(fs[i])
  {
    seq(|fs|, i requires 0 <= i < |fs| => FeatureObject(fs[i]))
  }

  /** `FeatureCollection(objects)`: all Features (vacuously so when there are
      none) are kept as given; otherwise each object becomes `Feature(o)`. */
  function NewCollection(objects: seq<GeoObject>): FeatureCollection {
    if AllFeatures(objects) then FeatureCollection(seq(|objects|, i requires 0 <= i < |objects| => objects[i].feature))
    else FeatureCollection(seq(|objects|, i requires 0 <= i < |objects| => Feature(AsGeometry(objects[i]))))
  }

  /** A collection of Features keeps exactly the sequence it was given. */
  lemma NewCollectionKeepsFeatures(objects: seq<GeoObject>)
    requires AllFeatures(objects)
    ensures AsObjects(NewCollection(objects).features) == objects
  {
  }

  /** A collection holding any shape wraps every object, in order, as a
      feature without properties whose geometry is that object; a Feature
      among shapes becomes the geometry of a new Feature. */
  lemma NewCollectionWraps(objects: seq<GeoObject>)
    requires !AllFeatures(objects)
    ensures |NewCollection(objects).features| == |objects|
    ensures forall i :: 0 <= i < |objects| ==>
      NewCollection(objects).features[i].geometry == AsGeometry(objects[i]) &&
      NewCollection(objects).features[i].properties.None?
  {
  }

  /** `iter(collection)`: the stored features, in order. */
  function Iterate(c: FeatureCollection): seq<Feature> {
    c.features
  }

  /** Iterating a collection built from shapes gives `Feature(g)` for each
      shape `g`, in the order given. */
  lemma IterateShapes(shapes: seq<Shape>)
    ensures |Iterate(NewCollection(seq(|shapes|, i requires 0 <= i < |shapes| => ShapeObject(shapes[i]))))| == |shapes|
    ensures forall i :: 0 <= i < |shapes| ==>
      FeatureEquals(Iterate(NewCollection(seq(|shapes|, j requires 0 <= j < |shapes| => ShapeObject(shapes[j]))))[i],
                    Feature(ShapeGeometry(shapes[i])))
  {
    var objects := seq(|shapes|, j requires 0 <= j < |shapes| => ShapeObject(shapes[j]));
    if shapes != [] {
      assert objects[0].ShapeObject?;
    }
  }

  /** `FeatureCollection.__geo_interface__`. */
  function CollectionInterface(c: FeatureCollection): Json {
    JObject(map["type" := JString("FeatureCollection"),
                "features" := JArray(seq(|c.features|, i requires 0 <= i < |c.features| => FeatureInterface(c.features[i])))])
  }

  /** `FeatureCollection.__eq__`: the representations are `==`. */
  predicate CollectionEquals(a: FeatureCollection, b: FeatureCollection) {
    PyEq(CollectionInterface(a), CollectionInterface(b))
  }

  /** Two collections are equal exactly when they hold equally many
      features and the features are pairwise equal, in order. */
  lemma CollectionEqualsIffSameFeatures(a: FeatureCollection, b: FeatureCollection)
    ensures CollectionEquals(a, b) <==>
      |a.features| == |b.features| &&
      forall i :: 0 <= i < |a.features| ==> FeatureEquals(a.features[i], b.features[i])
  {
    var ia := PyFeatures(a);
    var ib := PyFeatures(b);
    PyValueOfCollectionInterface(a);
    PyValueOfCollectionInterface(b);
    if CollectionEquals(a, b) {
      assert JArray(ia) == PyValue(CollectionInterface(a)).fields["features"];
      assert JArray(ib) == PyValue(CollectionInterface(b)).fields["features"];
      assert ia == ib;
    }
    if |a.features| == |b.features| &&
       forall i :: 0 <= i < |a.features| ==> FeatureEquals(a.features[i], b.features[i])
    {
      assert ia == ib;
    }
  }

  /** What `==` sees of each feature of a collection, in order. */
  function PyFeatures(c: FeatureCollection): (r: seq<Json>)
    ensures |r| == |c.features|
    ensures forall i :: 0 <= i < |c.features| ==> r[i] == PyValue(FeatureInterface(c.features[i]))
  {
    seq(|c.features|, i requires 0 <= i < |c.features| => PyValue(FeatureInterface(c.features[i])))
  }

  lemma PyValueOfCollectionInterface(c: FeatureCollection)
    ensures PyValue(CollectionInterface(c)) ==
      JObject(map["type" := JString("FeatureCollection"), "features" := JArray(PyFeatures(c))])
  {
    var m := CollectionInterface(c).fields;
    var items := m["features"].items;
    assert PyValue(m["features"]) == JArray(PyFeatures(c));
    assert PyValue(m["type"]) == JString("FeatureCollection");
    assert PyValue(CollectionInterface(c)).fields.Keys == m.Keys;
  }
}
