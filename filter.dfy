/** cogj's `FeatureFilter`: a pipeline over a stream of features that drops
    the features whose properties a schema rejects, rewrites the properties
    it keeps, stops after `limit` features and cuts the rest into chunks.
    The schema is an abstract verdict on a properties value; the stream is a
    finite sequence, and an exception anywhere in it is the result of the
    whole run. */
module Filter {
  import opened Wrappers
  import opened Seqs
  import opened Features
  import Utilities
  import Arith

  /** A compiled voluptuous schema: its verdict on a properties value (None
      included), and whether it lets extra keys through. */
  datatype Schema = Schema(accepts: Option<Properties> -> bool, allowExtra: bool)

  /** What may be assigned to `schema`: None, a compiled Schema, or a plain
      dictionary schema, which is given here by the verdict it compiles to. */
  datatype SchemaArg = NoSchema | Compiled(schema: Schema) | Plain(accepts: Option<Properties> -> bool)

  /** What `set_property_filter` may be given: a string, another iterable of
      keys (a list, which can be read once per feature), or any other value,
      taken by its truth. */
  datatype KeepSpec = KeepName(name: string) | KeepNames(names: seq<string>) | KeepFlag(truthy: bool)

  /** The property processing `set_property_filter` installs. */
  datatype PropertyMode = AllowProperties | RemoveProperties | FilterProperties(keep: set<string>)

  /** What iterating the filter yields: features, or tuples of them when
      chunking is on. */
  datatype Output = Stream(features: seq<Feature>) | Chunked(chunks: seq<seq<Feature>>)

  const IsliceError := ValueError("Stop argument for islice() must be None or an integer: 0 <= x <= sys.maxsize.")

  /** The `schema` setter: a plain schema is wrapped with extra keys allowed,
      a compiled one kept, None removes the schema. */
  function SchemaOf(arg: SchemaArg): (s: Option<Schema>)
    ensures s.None? <==> arg.NoSchema?
    ensures arg.Compiled? ==> s == Some(arg.schema)
    ensures arg.Plain? ==>
      s.Some? && s.value.allowExtra && forall p :: s.value.accepts(p) == arg.accepts(p)
  {
    match arg
    case NoSchema => None
    case Compiled(schema) => Some(schema)
    case Plain(accepts) => Some(Schema(accepts, true))
  }

  /** `set_property_filter(keep_properties)`: a string is one key (checked
      before the general iterable case), an iterable its set of keys, and
      otherwise truth keeps all properties and falsehood drops them. */
  function ModeOf(keep: KeepSpec): PropertyMode {
    match keep
    case KeepName(name) => FilterProperties({name})
    case KeepNames(names) => FilterProperties(set k | k in names)
    case KeepFlag(truthy) => if truthy then AllowProperties else RemoveProperties
  }

  /** The characters of a string, each a one-letter key: what iterating the
      string would give. */
  function Letters(name: string): seq<string> {
    seq(|name|, i requires 0 <= i < |name| => [name[i]])
  }

  /** A string keeps only the key it spells, as the one-element list of it
      would; it is not taken as the iterable of its letters. */
  lemma KeepNameIsOneKey(name: string)
    ensures ModeOf(KeepName(name)) == ModeOf(KeepNames([name]))
    ensures |name| > 1 ==> ModeOf(KeepName(name)) != ModeOf(KeepNames(Letters(name)))
  {
    assert (set k | k in [name]) == {name};
    if |name| > 1 {
      assert name !in Letters(name);
    }
  }

  /** `validate`: every feature when there is no schema, otherwise the
      features whose properties the schema accepts, in order. */
  function Validate(schema: Option<Schema>, fs: seq<Feature>): (r: seq<Feature>)
    decreases |fs|
  {
    if schema.None? || fs == [] then fs
    else (if schema.value.accepts(fs[0].properties) then [fs[0]] else []) + Validate(schema, fs[1..])
  }

  /** Without a schema nothing is dropped; with one, exactly the accepted
      features stay, in their order. */
  lemma {:induction false} ValidateCharacterised(schema: Option<Schema>, fs: seq<Feature>)
    ensures schema.None? ==> Validate(schema, fs) == fs
    ensures schema.Some? ==>
      IsSubsequence(Validate(schema, fs), fs) &&
      (forall f :: f in Validate(schema, fs) ==> f in fs && schema.value.accepts(f.properties)) &&
      (forall i :: 0 <= i < |fs| && schema.value.accepts(fs[i].properties) ==> fs[i] in Validate(schema, fs))
    decreases |fs|
  {
    if schema.Some? && fs != [] {
      ValidateCharacterised(schema, fs[1..]);
      var rest := Validate(schema, fs[1..]);
      forall i | 0 <= i < |fs| && schema.value.accepts(fs[i].properties)
        ensures fs[i] in Validate(schema, fs)
      {
        if i > 0 {
          assert fs[1..][i - 1] == fs[i];
        }
      }
      if schema.value.accepts(fs[0].properties) {
        assert ([fs[0]] + rest)[0] == fs[0] && ([fs[0]] + rest)[1..] == rest;
      } else {
        assert [] + rest == rest;
        SubsequenceOfTail(rest, fs);
      }
    }
  }

  /** The properties of `p` whose key is in `keep`. */
  function Restrict(p: Properties, keep: set<string>): (r: Properties)
    ensures r.Keys == p.Keys * keep
    ensures forall k :: k in r ==> r[k] == p[k]
  {
    map k | k in p && k in keep :: p[k]
  }

  /** `_process_properties(feature)`: the feature itself, the feature with
      its geometry only, or a new feature keeping the listed keys; a feature
      without properties has no `.items()` to filter. */
  function ProcessFeature(mode: PropertyMode, f: Feature): Result<Feature> {
    match mode
    case AllowProperties => Ok(f)
    case RemoveProperties => Ok(Feature(f.geometry))
    case FilterProperties(keep) =>
      if f.properties.None? then Err(AttributeError("items"))
      else Ok(Feature(f.geometry, Some(Restrict(f.properties.value, keep))))
  }

  /** `process`: each feature processed, in order; the first failure ends
      the run. */
  function Process(mode: PropertyMode, fs: seq<Feature>): Result<seq<Feature>>
    decreases |fs|
  {
    if fs == [] then Ok([])
    else
      var f :- ProcessFeature(mode, fs[0]);
      var rest :- Process(mode, fs[1..]);
      Ok([f] + rest)
  }

  /** Processing keeps the number and the order of the features and their
      geometry; it fails only when keys are filtered and some feature has
      no properties. Keeping all properties changes nothing; removing them
      leaves each geometry with properties None; filtering keeps exactly
      the listed keys that are present. */
  lemma {:induction false} ProcessCharacterised(mode: PropertyMode, fs: seq<Feature>)
    ensures Process(mode, fs).Err? <==>
      mode.FilterProperties? && exists i :: 0 <= i < |fs| && fs[i].properties.None?
    ensures Process(mode, fs).Err? ==> Process(mode, fs).error == AttributeError("items")
    ensures Process(mode, fs).Ok? ==>
      var out := Process(mode, fs).value;
      |out| == |fs| &&
      (forall i :: 0 <= i < |fs| ==> out[i].geometry == fs[i].geometry) &&
      (mode.AllowProperties? ==> out == fs) &&
      (mode.RemoveProperties? ==> forall i :: 0 <= i < |fs| ==> out[i].properties.None?) &&
      (mode.FilterProperties? ==> forall i :: 0 <= i < |fs| ==>
         out[i].properties.Some? && out[i].properties.value.Keys == fs[i].properties.value.Keys * mode.keep &&
         forall k :: k in out[i].properties.value ==> out[i].properties.value[k] == fs[i].properties.value[k])
    decreases |fs|
  {
    if fs != [] {
      ProcessCharacterised(mode, fs[1..]);
      if Process(mode, fs[1..]).Err? && mode.FilterProperties? {
        var j :| 0 <= j < |fs[1..]| && fs[1..][j].properties.None?;
        assert fs[j + 1].properties.None?;
      }
      if Process(mode, fs).Ok? {
        var out := Process(mode, fs).value;
        assert out[1..] == Process(mode, fs[1..]).value;
        forall i | 1 <= i < |fs|
          ensures out[i] == out[1..][i - 1] && fs[i] == fs[1..][i - 1]
        {
        }
        if mode.AllowProperties? {
          assert out == [fs[0]] + fs[1..];
        }
      }
    }
  }

  /** `take(n)`: the first `n` items, or all when there are fewer. */
  function Take<T>(n: nat, xs: seq<T>): (r: seq<T>)
    ensures |r| == if n < |xs| then n else |xs|
    ensures r <= xs
  {
    if n < |xs| then xs[..n] else xs
  }

  /** Processing is item by item, so processing the first `n` features gives
      the first `n` processed ones: the lazy pipeline, which processes only
      what `take` pulls, yields what the eager one would. */
  lemma {:induction false} ProcessTakeCommute(mode: PropertyMode, n: nat, fs: seq<Feature>)
    requires Process(mode, fs).Ok?
    ensures Process(mode, Take(n, fs)) == Ok(Take(n, Process(mode, fs).value))
    decreases |fs|
  {
    ProcessCharacterised(mode, fs);
    if n < |fs| && fs != [] {
      if n == 0 {
        assert Take(n, fs) == [];
      } else {
        ProcessTakeCommute(mode, n - 1, fs[1..]);
        assert Take(n, fs)[1..] == Take(n - 1, fs[1..]);
        assert Take(n, fs)[0] == fs[0];
        var out := Process(mode, fs).value;
        assert Take(n, out) == [out[0]] + Take(n - 1, out[1..]);
      }
    }
  }

  /** The whole pipeline, `validate` → `process` → `take(limit)` →
      `grouper(chunk)`, run to the end. A negative limit fails as the
      pipeline is built, a negative chunk size on the first item asked for;
      both before any feature is looked at. */
  function Pipeline(schema: Option<Schema>, mode: PropertyMode, limit: Option<int>, chunk: int, fs: seq<Feature>): Result<Output> {
    if limit.Some? && limit.value < 0 then Err(IsliceError)
    else if chunk < 0 then Err(IsliceError)
    else
      var valid := Validate(schema, fs);
      var taken := if limit.Some? then Take(limit.value, valid) else valid;
      var processed :- Process(mode, taken);
      if chunk == 0 then Ok(Stream(processed))
      else Ok(Chunked(Utilities.ChunksOf(processed, chunk)))
  }

  /** `FeatureFilter(limit, schema, keep_properties, chunk)`. The steps of
      the pipeline are fixed when it is built: `take` gets the value `limit`
      had then, so `limit` is a constant here. The grouping step reads
      `chunk` as features pass, but this model keeps `chunk` constant too
      and does not model reassigning it. The schema and the property
      processing are looked up as the features pass and can be changed
      afterwards. */
  class FeatureFilter {
    var schema: Option<Schema>
    const limit: Option<int>
    /** `chunk or False`: 0 when chunking is off. */
    const chunk: int
    var mode: PropertyMode

    constructor (limit: Option<int>, schema: SchemaArg, keep: KeepSpec, chunk: Option<int>)
      ensures this.schema == SchemaOf(schema) && this.limit == limit
      ensures this.chunk == chunk.GetOr(0) && mode == ModeOf(keep)
    {
      this.schema := SchemaOf(schema);
      this.limit := limit;
      this.chunk := chunk.GetOr(0);
      mode := ModeOf(keep);
    }

    /** The `schema` property's setter. */
    method SetSchema(arg: SchemaArg)
      modifies this`schema
      ensures schema == SchemaOf(arg)
    {
      schema := SchemaOf(arg);
    }

    method SetPropertyFilter(keep: KeepSpec)
      modifies this`mode
      ensures mode == ModeOf(keep)
    {
      mode := ModeOf(keep);
    }

    /** `list(filter(features))`. */
    function Call(fs: seq<Feature>): (r: Result<Output>)
      reads this
      ensures r == Pipeline(schema, mode, limit, chunk, fs)
    {
      Pipeline(schema, mode, limit, chunk, fs)
    }
  }

  /** With a limit `L` and no chunking, the filter yields `min(L, number of
      valid features)` features: the limit counts validated features only. */
  lemma LimitCountsValidFeatures(schema: Option<Schema>, mode: PropertyMode, limit: nat, fs: seq<Feature>)
    requires Pipeline(schema, mode, Some(limit), 0, fs).Ok?
    ensures var n := |Validate(schema, fs)|;
      |Pipeline(schema, mode, Some(limit), 0, fs).value.features| == if limit < n then limit else n
  {
    ProcessCharacterised(mode, Take(limit, Validate(schema, fs)));
  }

  /** With chunking, the chunks put back together are the processed features,
      and each holds `chunk` of them except the last; when `chunk` divides
      their number, every chunk is full. */
  lemma ChunksAreFull(schema: Option<Schema>, mode: PropertyMode, limit: Option<int>, chunk: int, fs: seq<Feature>)
    requires chunk > 0 && Pipeline(schema, mode, limit, chunk, fs).Ok?
    ensures var valid := Validate(schema, fs);
      var taken := if limit.Some? then Take(limit.value, valid) else valid;
      var chunks := Pipeline(schema, mode, limit, chunk, fs).value.chunks;
      Process(mode, taken).Ok? &&
      Utilities.IsChunking(chunks, Process(mode, taken).value, chunk) &&
      (|taken| % chunk == 0 ==> forall j :: 0 <= j < |chunks| ==> |chunks[j]| == chunk)
  {
    var valid := Validate(schema, fs);
    var taken := if limit.Some? then Take(limit.value, valid) else valid;
    var processed := Process(mode, taken).value;
    var chunks := Utilities.ChunksOf(processed, chunk);
    Utilities.ChunksOfIsChunking(processed, chunk);
    ProcessCharacterised(mode, taken);
    if |taken| % chunk == 0 && chunks != [] {
      var k := |chunks| - 1;
      var full := chunks[..k];
      assert chunks == full + [chunks[k]];
      ConcatAppend(full, chunks[k]);
      ConcatLength(full, chunk);
      LastChunkFull(k, chunk, |chunks[k]|, |taken|);
    }
  }

  lemma LastChunkFull(k: nat, n: int, m: int, total: int)
    requires n > 0 && 1 <= m <= n && total == k * n + m && total % n == 0
    ensures m == n
  {
    if m < n {
      PartialRemainder(k, n, m);
    }
  }

  lemma PartialRemainder(k: nat, n: int, m: int)
    requires 1 <= m < n
    ensures (k * n + m) % n == m
  {
    assert (k + 1) * n == k * n + n;
    Arith.DivUnique(k * n + m, n, k);
  }

  /** Keeping all properties and no schema, limit or chunking, the filter
      gives back its input. */
  lemma DefaultFilterIsIdentity(fs: seq<Feature>)
    ensures Pipeline(None, AllowProperties, None, 0, fs) == Ok(Stream(fs))
  {
    ProcessCharacterised(AllowProperties, fs);
  }
}
