/** The header-driven part of the serverless COGJ reader, shared by both
    `Geo_Serverless` copies: the header's collections, their selection by a
    query box, the smallest collection, the byte ranges requested for a list
    of collections and the concatenation of what comes back, and the dataset
    metadata built from the header. */
module ChunkSelection {
  import opened Wrappers
  import opened Seqs

  /** The four numbers `box(minx, miny, maxx, maxy)` is built from. */
  datatype Box = Box(minx: real, miny: real, maxx: real, maxy: real)

  /** One entry of the header's `collections`: each key may be absent. */
  datatype Collection = Collection(
    bbox: Option<Box>,
    start: Option<int>,
    size: Option<int>,
    features: Option<int>)

  /** The JSON header at the start of a COGJ file; each key may be absent.
      `version` and `published` are held as the text `format` gives them. */
  datatype Header = Header(
    name: Option<string>,
    description: Option<string>,
    version: Option<string>,
    published: Option<string>,
    bbox: Option<seq<real>>,
    collections: Option<seq<Collection>>)

  /** `header["collections"]`. */
  function CollectionsOf(h: Header): (r: Result<seq<Collection>>)
    ensures r.Ok? <==> h.collections.Some?
    ensures r.Ok? ==> r.value == h.collections.value
    ensures r.Err? ==> r.error == KeyError("collections")
  {
    if h.collections.Some? then Ok(h.collections.value) else Err(KeyError("collections"))
  }

  // ---------------------------------------------------------------------------
  // Selection by a query box

  function Min(a: real, b: real): real {
    if a <= b then a else b
  }

  function Max(a: real, b: real): real {
    if a <= b then b else a
  }

  /** The point `(x, y)` lies in the closed rectangle spanned by `b` (the
      rectangle shapely builds does not depend on the order of the corners). */
  predicate InBox(b: Box, x: real, y: real) {
    Min(b.minx, b.maxx) <= x <= Max(b.minx, b.maxx) &&
    Min(b.miny, b.maxy) <= y <= Max(b.miny, b.maxy)
  }

  /** `box(*p).intersects(box(*q))`: the two closed rectangles meet, so
      touching edges and corners count. */
  predicate BoxesIntersect(p: Box, q: Box) {
    Min(p.minx, p.maxx) <= Max(q.minx, q.maxx) && Min(q.minx, q.maxx) <= Max(p.minx, p.maxx) &&
    Min(p.miny, p.maxy) <= Max(q.miny, q.maxy) && Min(q.miny, q.maxy) <= Max(p.miny, p.maxy)
  }

  /** The test is exactly "the rectangles share a point". */
  lemma BoxesIntersectIffCommonPoint(p: Box, q: Box)
    ensures BoxesIntersect(p, q) <==> exists x, y :: InBox(p, x, y) && InBox(q, x, y)
  {
    if BoxesIntersect(p, q) {
      var x := Max(Min(p.minx, p.maxx), Min(q.minx, q.maxx));
      var y := Max(Min(p.miny, p.maxy), Min(q.miny, q.maxy));
      assert InBox(p, x, y) && InBox(q, x, y);
    }
  }

  lemma BoxesIntersectSymmetric(p: Box, q: Box)
    ensures BoxesIntersect(p, q) <==> BoxesIntersect(q, p)
  {
  }

  /** The collections whose box meets `q`, in header order; a collection
      without a `bbox` key is a KeyError. */
  function Selected(cs: seq<Collection>, q: Box): Result<seq<Collection>> {
    if cs == [] then Ok([])
    else if cs[0].bbox.None? then Err(KeyError("bbox"))
    else
      var rest := Selected(cs[1..], q);
      if rest.Err? then rest
      else if BoxesIntersect(q, cs[0].bbox.value) then Ok([cs[0]] + rest.value)
      else rest
  }

  /** The selection fails exactly when some collection lacks a box; otherwise
      it keeps the collections that meet the query box, all of them, in
      header order. */
  lemma {:induction false} SelectedCharacterised(cs: seq<Collection>, q: Box)
    ensures Selected(cs, q).Ok? <==> forall i :: 0 <= i < |cs| ==> cs[i].bbox.Some?
    ensures Selected(cs, q).Ok? ==>
      (forall c :: c in Selected(cs, q).value ==> c in cs && BoxesIntersect(q, c.bbox.value)) &&
      (forall i :: 0 <= i < |cs| && BoxesIntersect(q, cs[i].bbox.value) ==> cs[i] in Selected(cs, q).value) &&
      IsSubsequence(Selected(cs, q).value, cs)
    decreases |cs|
  {
    if cs != [] {
      SelectedCharacterised(cs[1..], q);
      if cs[0].bbox.Some? && Selected(cs[1..], q).Ok? {
        var rest := Selected(cs[1..], q).value;
        forall i | 0 <= i < |cs| && BoxesIntersect(q, cs[i].bbox.value)
          ensures cs[i] in Selected(cs, q).value
        {
          if i > 0 {
            assert cs[i] == cs[1..][i - 1];
          }
        }
        if BoxesIntersect(q, cs[0].bbox.value) {
          assert ([cs[0]] + rest)[1..] == rest;
        } else {
          if rest != [] {
            assert IsSubsequence(rest, cs[1..]);
          }
        }
      } else if cs[0].bbox.Some? {
        var i :| 0 <= i < |cs[1..]| && cs[1..][i].bbox.None?;
        assert cs[i + 1].bbox.None?;
      }
    }
  }

  /** The selection loop of `get_collections_for_bbox`. */
  method SelectByBox(cs: seq<Collection>, q: Box) returns (r: Result<seq<Collection>>)
    ensures r == Selected(cs, q)
  {
    var filtered: seq<Collection> := [];
    var i := 0;
    while i < |cs|
      invariant 0 <= i <= |cs|
      invariant Selected(cs[..i], q) == Ok(filtered)
    {
      var c := cs[i];
      if c.bbox.None? {
        SelectedCharacterised(cs, q);
        SelectedOnlyKeyError(cs, q);
        return Err(KeyError("bbox"));
      }
      SelectedSnoc(cs[..i], c, q);
      assert cs[..i] + [c] == cs[..i + 1];
      assert Selected(cs[..i + 1], q) ==
        Ok(filtered + (if BoxesIntersect(q, c.bbox.value) then [c] else []));
      if BoxesIntersect(q, c.bbox.value) {
        filtered := filtered + [c];
      } else {
        assert filtered + [] == filtered;
      }
      i := i + 1;
    }
    assert cs[..i] == cs;
    r := Ok(filtered);
  }

  lemma {:induction false} SelectedOnlyKeyError(cs: seq<Collection>, q: Box)
    ensures Selected(cs, q).Err? ==> Selected(cs, q) == Err(KeyError("bbox"))
    decreases |cs|
  {
    if cs != [] {
      SelectedOnlyKeyError(cs[1..], q);
    }
  }

  /** Selecting from `a + [c]` extends the selection from `a` by `c` when its
      box meets `q`. */
  lemma {:induction false} SelectedSnoc(a: seq<Collection>, c: Collection, q: Box)
    requires Selected(a, q).Ok? && c.bbox.Some?
    ensures Selected(a + [c], q) ==
      Ok(Selected(a, q).value + (if BoxesIntersect(q, c.bbox.value) then [c] else []))
    decreases |a|
  {
    if a == [] {
      assert a + [c] == [c] && [c][1..] == [];
      assert Selected([c][1..], q) == Ok([]) && [c][0] == c && [c] + [] == [c];
      var extra := if BoxesIntersect(q, c.bbox.value) then [c] else [];
      assert Selected([c], q) == Ok(extra);
      assert Selected(a, q).value + extra == extra;
    } else {
      assert (a + [c])[0] == a[0];
      assert (a + [c])[1..] == a[1..] + [c];
      SelectedSnoc(a[1..], c, q);
      var extra := if BoxesIntersect(q, c.bbox.value) then [c] else [];
      var rest := Selected(a[1..], q).value;
      assert Selected(a[1..] + [c], q) == Ok(rest + extra);
      if BoxesIntersect(q, a[0].bbox.value) {
        assert Selected(a, q) == Ok([a[0]] + rest);
        assert Selected(a + [c], q) == Ok([a[0]] + (rest + extra));
        assert [a[0]] + (rest + extra) == ([a[0]] + rest) + extra;
      } else {
        assert Selected(a, q) == Ok(rest);
      }
    }
  }

  // ---------------------------------------------------------------------------
  // The smallest collection

  /** Among the first `n` collections (all with a `features` count),
      collection `k` has the least count and no earlier one has the same. */
  predicate EarliestMinUpTo(cs: seq<Collection>, n: int, k: int)
    requires 0 <= n <= |cs|
    requires forall j :: 0 <= j < n ==> cs[j].features.Some?
  {
    0 <= k < n &&
    (forall j :: 0 <= j < n ==> cs[k].features.value <= cs[j].features.value) &&
    (forall j :: 0 <= j < k ==> cs[k].features.value < cs[j].features.value)
  }

  /** `find_smallest_collection` over the header's collections: the earliest
      collection with the least `features` count, None when there is none, and
      a KeyError when some collection has no count. */
  method FindSmallest(cs: seq<Collection>) returns (r: Result<Option<Collection>>)
    ensures r.Err? <==> exists j :: 0 <= j < |cs| && cs[j].features.None?
    ensures r.Err? ==> r.error == KeyError("features")
    ensures r.Ok? ==> (r.value.None? <==> cs == [])
    ensures r.Ok? && r.value.Some? ==>
      exists k :: 0 <= k < |cs| && EarliestMinUpTo(cs, |cs|, k) && r.value.value == cs[k]
  {
    var smallest: Option<Collection> := None;
    ghost var k := 0;
    var i := 0;
    while i < |cs|
      invariant 0 <= i <= |cs|
      invariant forall j :: 0 <= j < i ==> cs[j].features.Some?
      invariant smallest.None? <==> i == 0
      invariant i > 0 ==> EarliestMinUpTo(cs, i, k) && smallest == Some(cs[k])
    {
      var c := cs[i];
      if smallest.None? {
        smallest := Some(c);
        k := i;
      }
      if c.features.None? {
        return Err(KeyError("features"));
      }
      if c.features.value < smallest.value.features.value {
        smallest := Some(c);
        k := i;
      }
      i := i + 1;
    }
    r := Ok(smallest);
  }

  // ---------------------------------------------------------------------------
  // Range reads

  predicate HasRange(c: Collection) {
    c.start.Some? && c.size.Some?
  }

  /** The range `bytes=start-end` requested for a collection: the end is
      `start + size`, sent as the (inclusive) last byte. */
  function RangeOf(c: Collection): (r: (int, int))
    requires HasRange(c)
    ensures r.0 == c.start.value && r.1 - r.0 == c.size.value
  {
    (c.start.value, c.start.value + c.size.value)
  }

  /** Whether collection `c` can be read: it has a range and the payload
      fetched for it has a `features` list. */
  predicate Readable<F>(c: Collection, fetch: ((int, int)) -> Option<seq<F>>) {
    HasRange(c) && fetch(RangeOf(c)).Some?
  }

  /** The ranges requested for the first `n` collections. */
  function RangesOf(cs: seq<Collection>, n: nat): (r: seq<(int, int)>)
    requires n <= |cs| && forall i :: 0 <= i < n ==> HasRange(cs[i])
    ensures |r| == n && forall i :: 0 <= i < n ==> r[i] == RangeOf(cs[i])
  {
    seq(n, i requires 0 <= i < n && HasRange(cs[i]) => RangeOf(cs[i]))
  }

  /** The feature lists fetched for the first `n` collections. */
  function PayloadsOf<F>(cs: seq<Collection>, n: nat, fetch: ((int, int)) -> Option<seq<F>>): (r: seq<seq<F>>)
    requires n <= |cs| && forall i :: 0 <= i < n ==> Readable(cs[i], fetch)
    ensures |r| == n
    ensures forall i :: 0 <= i < n ==> Readable(cs[i], fetch) && r[i] == fetch(RangeOf(cs[i])).value
  {
    seq(n, i requires 0 <= i < n && Readable(cs[i], fetch) => fetch(RangeOf(cs[i])).value)
  }

  /** Collection `i` is the first that cannot be read. */
  predicate FirstUnreadable<F>(cs: seq<Collection>, fetch: ((int, int)) -> Option<seq<F>>, i: int)
    requires 0 <= i < |cs|
  {
    !Readable(cs[i], fetch) && forall j :: 0 <= j < i ==> Readable(cs[j], fetch)
  }

  /** `read_feature_collections(collections)`: one range request per
      collection, in order, and the fetched `features` lists concatenated in
      that order. It stops at the first collection without `start`/`size` (a
      GeoServerlessException, no request made for it) or whose payload has no
      `features` (a KeyError, after its request). `fetch` stands for the HTTP
      range request and the JSON decoding of its answer; `requests` lists the
      ranges requested. */
  method ReadFeatureCollections<F>(cs: seq<Collection>, fetch: ((int, int)) -> Option<seq<F>>)
    returns (r: Result<seq<F>>, requests: seq<(int, int)>)
    ensures r.Ok? <==> forall i :: 0 <= i < |cs| ==> Readable(cs[i], fetch)
    ensures r.Ok? ==> requests == RangesOf(cs, |cs|) && r.value == Concat(PayloadsOf(cs, |cs|, fetch))
    ensures r.Err? ==>
      exists i :: 0 <= i < |cs| && FirstUnreadable(cs, fetch, i) &&
        (if HasRange(cs[i]) then
           r.error == KeyError("features") && requests == RangesOf(cs, i) + [RangeOf(cs[i])]
         else
           r.error.GeoServerlessError? && requests == RangesOf(cs, i))
  {
    var features: seq<F> := [];
    requests := [];
    var i := 0;
    while i < |cs|
      invariant 0 <= i <= |cs|
      invariant forall j :: 0 <= j < i ==> Readable(cs[j], fetch)
      invariant requests == RangesOf(cs, i)
      invariant features == Concat(PayloadsOf(cs, i, fetch))
    {
      var c := cs[i];
      if c.start.None? || c.size.None? {
        return Err(GeoServerlessError("FeatureCollection missing 'start'/'size'")), requests;
      }
      var range := (c.start.value, c.start.value + c.size.value);
      requests := requests + [range];
      var payload := fetch(range);
      if payload.None? {
        return Err(KeyError("features")), requests;
      }
      assert PayloadsOf(cs, i + 1, fetch) == PayloadsOf(cs, i, fetch) + [payload.value];
      ConcatAppend(PayloadsOf(cs, i, fetch), payload.value);
      features := features + payload.value;
      i := i + 1;
    }
    r := Ok(features);
  }

  /** When every payload holds `n` features, the result holds `n` per collection. */
  lemma ReadFeatureCount<F>(cs: seq<Collection>, fetch: ((int, int)) -> Option<seq<F>>, n: nat)
    requires forall i :: 0 <= i < |cs| ==> Readable(cs[i], fetch) && |fetch(RangeOf(cs[i])).value| == n
    ensures |Concat(PayloadsOf(cs, |cs|, fetch))| == |cs| * n
  {
    ConcatLength(PayloadsOf(cs, |cs|, fetch), n);
  }

  // ---------------------------------------------------------------------------
  // Metadata

  /** What `get_metadata` returns. */
  datatype Metadata = Metadata(name: string, title: string, abstractText: string)

  /** The abstract `build_abstract` writes: the description (or nothing), then
      "Verison: v." and "Published on: p." for the keys that are present. */
  function BuildAbstract(h: Header): (r: string)
  {
    var a := if h.description.Some? then h.description.value else "";
    var a := if h.version.Some? then a + "Verison: " + h.version.value + "." else a;
    if h.published.Some? then a + "Published on: " + h.published.value + "." else a
  }

  /** The abstract starts with the description, ends with the published
      sentence when there is one, and its length adds up the three parts. */
  lemma BuildAbstractShape(h: Header)
    ensures var d := h.description.GetOr("");
      |BuildAbstract(h)| >= |d| && BuildAbstract(h)[..|d|] == d
    ensures h.published.Some? ==>
      var tail := "Published on: " + h.published.value + ".";
      |BuildAbstract(h)| >= |tail| && BuildAbstract(h)[|BuildAbstract(h)| - |tail|..] == tail
    ensures |BuildAbstract(h)| ==
      |h.description.GetOr("")| +
      (if h.version.Some? then 10 + |h.version.value| else 0) +
      (if h.published.Some? then 15 + |h.published.value| else 0)
    ensures h.version.None? && h.published.None? ==> BuildAbstract(h) == h.description.GetOr("")
  {
  }

  /** `get_metadata()` once the header is known: the file name, the header's
      `name` or "Unmamed dataset", and the abstract. */
  function MetadataOf(h: Header, filename: string): (m: Metadata)
    ensures m.name == filename && m.abstractText == BuildAbstract(h)
    ensures h.name.Some? ==> m.title == h.name.value
    ensures h.name.None? ==> m.title == "Unmamed dataset"
  {
    Metadata(filename, if h.name.Some? then h.name.value else "Unmamed dataset", BuildAbstract(h))
  }
}
