/** `Geo_Serverless` of the Flask API: a COGJ file behind a URL whose JSON
    header is read once, on first use, and then serves every question about
    the file. The header request's answer is passed in as `remote`; it is
    used only while no header is cached. */
module FlaskGeoServerless {
  import opened Wrappers
  import opened ChunkSelection
  import opened Seqs
  import ApiUtils

  class GeoServerless {
    const url: string
    /** `self.header`: None until the first read. */
    var header: Option<Header>

    constructor (url: string)
      ensures this.url == url && header == None
    {
      this.url := url;
      header := None;
    }

    /** `Geo_Serverless(COGJ_URL)`: a GeoServerlessException without a URL. */
    static method Create(url: Option<string>) returns (r: Result<GeoServerless>)
      ensures r.Err? <==> url.None?
      ensures r.Err? ==> r.error == GeoServerlessError("COGJ_URL not provided.")
      ensures r.Ok? ==> fresh(r.value) && r.value.url == url.value && r.value.header == None
    {
      if url.None? {
        return Err(GeoServerlessError("COGJ_URL not provided."));
      }
      var g := new GeoServerless(url.value);
      r := Ok(g);
    }

    /** `read_header()`: the header becomes what the range request for bytes
        0-9999 returns. */
    method ReadHeader(remote: Header)
      modifies this`header
      ensures header == Some(remote)
    {
      header := Some(remote);
    }

    /** `if self.header is None: self.read_header()`, then the header. */
    method CachedHeader(remote: Header) returns (h: Header)
      modifies this`header
      ensures old(header).Some? ==> h == old(header).value
      ensures old(header).None? ==> h == remote
      ensures header == Some(h)
    {
      if header.None? {
        ReadHeader(remote);
      }
      h := header.value;
    }

    /** `get_collections()`. */
    method GetCollections(remote: Header) returns (r: Result<seq<Collection>>)
      modifies this`header
      ensures header == Some(old(header).GetOr(remote))
      ensures r == CollectionsOf(header.value)
    {
      var h := CachedHeader(remote);
      r := CollectionsOf(h);
    }

    /** `get_bbox()`: the header's `bbox`, or a GeoServerlessException. */
    method GetBbox(remote: Header) returns (r: Result<seq<real>>)
      modifies this`header
      ensures header == Some(old(header).GetOr(remote))
      ensures r.Ok? <==> header.value.bbox.Some?
      ensures r.Ok? ==> r.value == header.value.bbox.value
      ensures r.Err? ==> r.error.GeoServerlessError?
    {
      var h := CachedHeader(remote);
      if h.bbox.Some? {
        return Ok(h.bbox.value);
      }
      r := Err(GeoServerlessError("COGJ file header doesn't contain 'bbox'"));
    }

    /** `get_metadata()`; `filename` is the last component of the URL's path. */
    method GetMetadata(remote: Header, filename: string) returns (m: Metadata)
      modifies this`header
      ensures header == Some(old(header).GetOr(remote))
      ensures m == MetadataOf(header.value, filename)
    {
      var h := CachedHeader(remote);
      m := MetadataOf(h, filename);
    }

    /** `get_collections_for_bbox(bbox)`: without a box, every collection, or
        only the first in development mode; with a box, the collections whose
        box meets it, in header order. */
    method GetCollectionsForBbox(remote: Header, bbox: Option<Box>, env: map<string, string>)
      returns (r: Result<seq<Collection>>)
      modifies this`header
      ensures header == Some(old(header).GetOr(remote))
      ensures header.value.collections.None? ==> r == Err(KeyError("collections"))
      ensures header.value.collections.Some? && bbox.None? ==>
        var all := header.value.collections.value;
        r == Ok(if ApiUtils.IsDev(env) then all[..if |all| < 1 then |all| else 1] else all)
      ensures header.value.collections.Some? && bbox.Some? ==>
        r == Selected(header.value.collections.value, bbox.value)
    {
      var h := CachedHeader(remote);
      if bbox.None? {
        if h.collections.None? {
          return Err(KeyError("collections"));
        }
        var all := h.collections.value;
        if ApiUtils.IsDev(env) {
          return Ok(all[..if |all| < 1 then |all| else 1]);
        }
        return Ok(all);
      }
      if h.collections.None? {
        return Err(KeyError("collections"));
      }
      r := SelectByBox(h.collections.value, bbox.value);
    }

    /** `find_smallest_collection()`. */
    method FindSmallestCollection(remote: Header) returns (r: Result<Option<Collection>>)
      modifies this`header
      ensures header == Some(old(header).GetOr(remote))
      ensures header.value.collections.None? ==> r == Err(KeyError("collections"))
      ensures header.value.collections.Some? ==>
        var cs := header.value.collections.value;
        (r.Err? <==> exists j :: 0 <= j < |cs| && cs[j].features.None?) &&
        (r.Ok? ==> (r.value.None? <==> cs == [])) &&
        (r.Ok? && r.value.Some? ==>
          exists k :: 0 <= k < |cs| && EarliestMinUpTo(cs, |cs|, k) && r.value.value == cs[k])
    {
      var cs := GetCollections(remote);
      if cs.Err? {
        return Err(cs.error);
      }
      r := FindSmallest(cs.value);
    }

    /** `read_feature_collections(collections)`: see
        `ChunkSelection.ReadFeatureCollections`; the header is not consulted. */
    method ReadFeatureCollections<F>(cs: seq<Collection>, fetch: ((int, int)) -> Option<seq<F>>)
      returns (r: Result<seq<F>>, requests: seq<(int, int)>)
      ensures r.Ok? <==> forall i :: 0 <= i < |cs| ==> Readable(cs[i], fetch)
      ensures r.Ok? ==> requests == RangesOf(cs, |cs|) && r.value == Concat(PayloadsOf(cs, |cs|, fetch))
      ensures r.Err? ==>
        exists i :: 0 <= i < |cs| && FirstUnreadable(cs, fetch, i) &&
          (if HasRange(cs[i]) then
             r.error == KeyError("features") && requests == RangesOf(cs, i) + [RangeOf(cs[i])]
           else
             r.error.GeoServerlessError? && requests == RangesOf(cs, i))
    {
      r, requests := ChunkSelection.ReadFeatureCollections(cs, fetch);
    }
  }

  /** The header is read once: a second question is answered from the first
      answer, whatever the file would now return. */
  method HeaderReadOnce(g: GeoServerless, first: Header, second: Header)
    returns (a: Result<seq<Collection>>, b: Result<seq<Collection>>)
    requires g.header.None?
    modifies g
    ensures a == b && a == CollectionsOf(first) && g.header == Some(first)
  {
    a := g.GetCollections(first);
    b := g.GetCollections(second);
  }
}
