/** The WFS 2.0 server's `GetFeature` response: converts a page of features
    to GML, writes the page's envelope y-first, and sets `numberMatched`,
    `numberReturned` and the `next`/`previous` paging links; in hits mode
    only the counts are returned. Also the layer-name rule and the
    capabilities corners. The request URL is the already parsed,
    upper-cased query dictionary; only the values written into it are
    modelled. */
module WfsServer {
  import opened Wrappers
  import opened PyText
  import opened GmlCoords
  import opened Gml
  import ApiUtils

  /** `make_wfs_safe_layername`: the file name lower-cased, nothing else. */
  function MakeWfsSafeLayername(filename: string): (r: string)
    ensures |r| == |filename|
    ensures forall i :: 0 <= i < |filename| ==> r[i] == LowerChar(filename[i])
  {
    Lower(filename)
  }

  /** A safe layer name is its own safe layer name, and a name's letters
      other than A to Z are kept as they are. */
  lemma LayernameStable(filename: string)
    ensures MakeWfsSafeLayername(MakeWfsSafeLayername(filename)) == MakeWfsSafeLayername(filename)
    ensures forall i :: 0 <= i < |filename| && !('A' <= filename[i] <= 'Z') ==>
      MakeWfsSafeLayername(filename)[i] == filename[i]
  {
    LowerIdempotent(filename);
  }

  // ---------------------------------------------------------------------------
  // Paging

  /** `__has_next_page`. */
  predicate HasNextPage(startFeature: int, featuresInResponse: int, totalFeatures: int) {
    startFeature + featuresInResponse < totalFeatures
  }

  /** `__has_previous_page`. */
  predicate HasPreviousPage(startFeature: int) {
    startFeature > 0
  }

  /** A query parameter: the list of values `parse_qs` gives, or an integer
      written in by the server. */
  datatype QueryValue = Values(vs: seq<string>) | Number(n: int)

  /** The request's query parameters, keys upper-cased. */
  type Query = map<string, QueryValue>

  /** The query of a paging link: `STARTINDEX` set, `COUNT` defaulted to
      the page size when the request had none, everything else kept. */
  function PageQuery(query: Query, startIndex: int, maxFeaturesPerPage: int): (q: Query)
    ensures q.Keys == query.Keys + {"STARTINDEX", "COUNT"}
    ensures q["STARTINDEX"] == Number(startIndex)
    ensures "COUNT" in query ==> q["COUNT"] == query["COUNT"]
    ensures "COUNT" !in query ==> q["COUNT"] == Number(maxFeaturesPerPage)
    ensures forall k :: k in query && k != "STARTINDEX" && k != "COUNT" ==> q[k] == query[k]
  {
    var q := query["STARTINDEX" := Number(startIndex)];
    if "COUNT" in q then q else q["COUNT" := Number(maxFeaturesPerPage)]
  }

  /** `__get_next_page_url`: the next page starts after this one. */
  function NextPageQuery(query: Query, startFeature: int, featuresInResponse: int, maxFeaturesPerPage: int): Query {
    PageQuery(query, startFeature + featuresInResponse, maxFeaturesPerPage)
  }

  /** `__get_previous_page_url`: the previous page starts a requested page
      size earlier, which may be before the first feature. */
  function PreviousPageQuery(query: Query, startFeature: int, featureCount: int, maxFeaturesPerPage: int): Query {
    PageQuery(query, startFeature - featureCount, maxFeaturesPerPage)
  }

  /** The previous link of a page that starts before one full page size
      points before the first feature. */
  lemma PreviousCanBeNegative(query: Query, startFeature: int, featureCount: int, maxFeaturesPerPage: int)
    requires HasPreviousPage(startFeature) && featureCount > startFeature
    ensures PreviousPageQuery(query, startFeature, featureCount, maxFeaturesPerPage)["STARTINDEX"].n < 0
  {
  }

  /** Following a next link and then that page's previous link, as query
      maps and with the same page size: `STARTINDEX` moves forward by the
      features on the page and back by the requested count, so it returns
      to the start exactly when the page was full; the other keys are those
      of the query, with its `COUNT` or the page size. */
  lemma NextThenPrevious(query: Query, startFeature: int, featuresInResponse: int, featureCount: int,
                         maxFeaturesPerPage: int)
    ensures var next := NextPageQuery(query, startFeature, featuresInResponse, maxFeaturesPerPage);
      var back := PreviousPageQuery(next, next["STARTINDEX"].n, featureCount, maxFeaturesPerPage);
      back == PageQuery(query, startFeature + featuresInResponse - featureCount, maxFeaturesPerPage) &&
      (back["STARTINDEX"].n == startFeature <==> featuresInResponse == featureCount)
    ensures "COUNT" in query ==>
      var next := NextPageQuery(query, startFeature, featuresInResponse, maxFeaturesPerPage);
      PreviousPageQuery(next, next["STARTINDEX"].n, featureCount, maxFeaturesPerPage) ==
        query["STARTINDEX" := Number(startFeature + featuresInResponse - featureCount)]
  {
    var next := NextPageQuery(query, startFeature, featuresInResponse, maxFeaturesPerPage);
    var back := PreviousPageQuery(next, next["STARTINDEX"].n, featureCount, maxFeaturesPerPage);
    var same := PageQuery(query, startFeature + featuresInResponse - featureCount, maxFeaturesPerPage);
    assert back.Keys == same.Keys;
    if "COUNT" in query {
      assert back.Keys == query.Keys + {"STARTINDEX"};
    }
  }

  // ---------------------------------------------------------------------------
  // Corners

  /** The corners `get_capabilities` writes from a `[minx, miny, maxx, maxy]`
      box: `bbox[1] bbox[0]` and `bbox[3] bbox[2]`. */
  function CapabilitiesCorners(bbox: seq<real>): Result<Envelope> {
    if |bbox| < 4 then Err(IndexError("list index out of range"))
    else Ok(Envelope((Some(bbox[1]), Some(bbox[0])), (Some(bbox[3]), Some(bbox[2]))))
  }

  /** The capabilities corners follow the same y-first order as every
      envelope written into a `GetFeature` response. */
  lemma CapabilitiesCornersYFirst(bbox: seq<real>)
    ensures |bbox| < 4 <==> CapabilitiesCorners(bbox).Err?
    ensures |bbox| >= 4 ==>
      CapabilitiesCorners(bbox) == Ok(EnvelopeOf(Corners(Some(bbox[0]), Some(bbox[1]), Some(bbox[2]), Some(bbox[3]))))
  {
  }

  // ---------------------------------------------------------------------------
  // GetFeature

  /** The `wfs:FeatureCollection` written: its two counts, its envelope and
      its feature members (None once removed), and its paging links. */
  datatype Response = Response(
    numberMatched: int,
    numberReturned: nat,
    boundedBy: Option<Envelope>,
    featureMembers: Option<seq<FeatureElement>>,
    next: Option<Query>,
    previous: Option<Query>)

  /** The response `get_feature` gives. In hits mode nothing is converted;
      otherwise every feature is, and the envelope is their union box. */
  function GetFeatureResponse(typeName: string, features: seq<GeoFeature>, startFeature: int, featureCount: int,
                              totalFeatures: int, resultTypeHits: bool, query: Query, maxFeaturesPerPage: int): Result<Response>
  {
    if resultTypeHits then Ok(Response(totalFeatures, 0, None, None, None, None))
    else
      var converted :- ConvertOutcome(TypeName(typeName), features);
      var members := converted.0;
      Ok(Response(
        totalFeatures, |members|, Some(EnvelopeOf(converted.1)), Some(members),
        if HasNextPage(startFeature, |members|, totalFeatures)
        then Some(NextPageQuery(query, startFeature, |features|, maxFeaturesPerPage)) else None,
        if HasPreviousPage(startFeature)
        then Some(PreviousPageQuery(query, startFeature, featureCount, maxFeaturesPerPage)) else None))
  }

  /** A paged response matches all the features there are and returns one
      member per feature of the page; there is a next link exactly when
      the page ends before the last feature, starting where the page ends,
      and a previous link exactly when the page does not start at the
      first feature, starting one requested page size earlier; the
      envelope holds every feature's box, y first. A page that fails to
      convert fails the response. */
  lemma PagedResponse(typeName: string, features: seq<GeoFeature>, startFeature: int, featureCount: int,
                      totalFeatures: int, query: Query, maxFeaturesPerPage: int)
    ensures var r := GetFeatureResponse(typeName, features, startFeature, featureCount, totalFeatures, false, query, maxFeaturesPerPage);
      var outcome := ConvertOutcome(TypeName(typeName), features);
      (r.Ok? <==> outcome.Ok?) &&
      (outcome.Err? ==> r == Err(outcome.error)) &&
      (r.Ok? ==>
        r.value.numberMatched == totalFeatures &&
        r.value.numberReturned == |features| &&
        r.value.featureMembers == Some(outcome.value.0) &&
        r.value.boundedBy == Some(Envelope((outcome.value.1.miny, outcome.value.1.minx), (outcome.value.1.maxy, outcome.value.1.maxx))) &&
        (r.value.next.Some? <==> startFeature + |features| < totalFeatures) &&
        (r.value.next.Some? ==> r.value.next.value["STARTINDEX"] == Number(startFeature + |features|)) &&
        (r.value.previous.Some? <==> startFeature > 0) &&
        (r.value.previous.Some? ==> r.value.previous.value["STARTINDEX"] == Number(startFeature - featureCount)))
  {
    var outcome := ConvertOutcome(TypeName(typeName), features);
    if outcome.Ok? {
      ConvertOutcomePerFeature(TypeName(typeName), features);
    }
  }

  /** In hits mode the response only counts: all features matched, none
      returned, no envelope, no members and no links. */
  lemma HitsResponse(typeName: string, features: seq<GeoFeature>, startFeature: int, featureCount: int,
                     totalFeatures: int, query: Query, maxFeaturesPerPage: int)
    ensures GetFeatureResponse(typeName, features, startFeature, featureCount, totalFeatures, true, query, maxFeaturesPerPage)
      == Ok(Response(totalFeatures, 0, None, None, None, None))
  {
  }

  /** A paged response for an empty page fails: the converter has no box
      to give. */
  lemma EmptyPagedResponseFails(typeName: string, startFeature: int, featureCount: int,
                                totalFeatures: int, query: Query, maxFeaturesPerPage: int)
    ensures GetFeatureResponse(typeName, [], startFeature, featureCount, totalFeatures, false, query, maxFeaturesPerPage)
      == Err(UnpackNothing)
  {
    EmptyPageFails(TypeName(typeName));
  }

  const MaxFeaturesKey := "MAX_FEATURES_PER_PAGE"

  /** `int(get_env("MAX_FEATURES_PER_PAGE"))`. */
  function MaxFeaturesPerPage(env: map<string, string>): Result<int> {
    var v := ApiUtils.GetEnv(env, MaxFeaturesKey, None);
    if v.None? then Err(TypeError("int() argument must be a string, a bytes-like object or a number, not 'NoneType'"))
    else ParseInt(v.value)
  }

  /** The page size is read back from its decimal text; without the
      variable `int(None)` fails. */
  lemma MaxFeaturesPerPageRead(env: map<string, string>, n: int)
    ensures MaxFeaturesKey !in env ==> MaxFeaturesPerPage(env).Err? && MaxFeaturesPerPage(env).error.TypeError?
    ensures MaxFeaturesKey in env && env[MaxFeaturesKey] == ShowInt(n) ==> MaxFeaturesPerPage(env) == Ok(n)
  {
    if MaxFeaturesKey in env && env[MaxFeaturesKey] == ShowInt(n) {
      ParseShowInt(n);
    }
  }

  class WFSServer {
    const maxFeaturesPerPage: int

    constructor (maxFeaturesPerPage: int)
      ensures this.maxFeaturesPerPage == maxFeaturesPerPage
    {
      this.maxFeaturesPerPage := maxFeaturesPerPage;
    }

    /** `get_feature`: the paged conversion goes through a fresh converter
        whose box is read back after `convert`. */
    method GetFeature(typeName: string, features: seq<GeoFeature>, startFeature: int, featureCount: int,
                      totalFeatures: int, resultTypeHits: bool, query: Query) returns (r: Result<Response>)
      ensures r == GetFeatureResponse(typeName, features, startFeature, featureCount, totalFeatures,
                                      resultTypeHits, query, maxFeaturesPerPage)
    {
      if resultTypeHits {
        return Ok(Response(totalFeatures, 0, None, None, None, None));
      }
      var converter := new GeoJSON2GML(typeName, features);
      var elements := converter.Convert(None);
      assert features[..|features|] == features;
      if elements.Err? {
        return Err(elements.error);
      }
      var bbox := converter.GetFeaturesBbox();
      var members := elements.value;
      var next := if HasNextPage(startFeature, |members|, totalFeatures)
        then Some(NextPageQuery(query, startFeature, |features|, maxFeaturesPerPage)) else None;
      var previous := if HasPreviousPage(startFeature)
        then Some(PreviousPageQuery(query, startFeature, featureCount, maxFeaturesPerPage)) else None;
      r := Ok(Response(totalFeatures, |members|, Some(EnvelopeOf(bbox.value)), Some(members), next, previous));
    }
  }

  /** `WFSServer()` under an environment: the page size must be set to an
      integer. */
  method NewServer(env: map<string, string>) returns (r: Result<WFSServer>)
    ensures MaxFeaturesPerPage(env).Err? ==> r == Err(MaxFeaturesPerPage(env).error)
    ensures MaxFeaturesPerPage(env).Ok? ==>
      r.Ok? && fresh(r.value) && r.value.maxFeaturesPerPage == MaxFeaturesPerPage(env).value
  {
    var size := MaxFeaturesPerPage(env);
    if size.Err? {
      return Err(size.error);
    }
    var server := new WFSServer(size.value);
    r := Ok(server);
  }
}
