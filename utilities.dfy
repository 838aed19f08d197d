/** cogj's iteration utilities: `grouper`, which cuts a stream into chunks,
    and `flatten`, which walks nested lists down to their leaves. */
module Utilities {
  import opened Wrappers
  import opened Seqs
  import opened Arith

  // ---------------------------------------------------------------------------
  // grouper

  /** The chunks of `xs` for a positive chunk size `n`: together they are
      `xs`, none is empty, each holds `n` items except the last, which holds
      between 1 and `n`. */
  ghost predicate IsChunking<T>(chunks: seq<seq<T>>, xs: seq<T>, n: int) {
    Concat(chunks) == xs &&
    (forall j :: 0 <= j < |chunks| ==> 1 <= |chunks[j]| <= n) &&
    (forall j :: 0 <= j < |chunks| - 1 ==> |chunks[j]| == n)
  }

  /** The chunks `grouper` yields for a positive size `n`. */
  function ChunksOf<T>(xs: seq<T>, n: int): seq<seq<T>>
    requires n > 0
    decreases |xs|
  {
    if xs == [] then []
    else if |xs| <= n then [xs]
    else [xs[..n]] + ChunksOf(xs[n..], n)
  }

  /** What `grouper(size, xs)` yields when run to the end. */
  function GrouperResult<T>(size: Option<int>, xs: seq<T>): Result<seq<seq<T>>> {
    if size.None? then Ok(if xs == [] then [] else [xs])
    else if size.value < 0 then Err(ValueError("Stop argument for islice() must be None or an integer"))
    else if size.value == 0 then Ok([])
    else Ok(ChunksOf(xs, size.value))
  }

  /** The chunks of a positive size rebuild the input, and are full except
      possibly the last. */
  lemma {:induction false} ChunksOfIsChunking<T>(xs: seq<T>, n: int)
    requires n > 0
    ensures IsChunking(ChunksOf(xs, n), xs, n)
    decreases |xs|
  {
    if |xs| > n {
      ChunksOfIsChunking(xs[n..], n);
      assert xs == xs[..n] + xs[n..];
    } else if xs != [] {
      assert Concat([xs]) == xs + Concat([]);
    }
  }

  /** `grouper(size, xs)`, run to the end: `tuple(islice(it, size))` until
      a chunk comes back empty. A size of None takes everything in one chunk,
      0 yields nothing and a negative size is islice's ValueError. */
  method Grouper<T>(size: Option<int>, xs: seq<T>) returns (r: Result<seq<seq<T>>>)
    ensures r == GrouperResult(size, xs)
    ensures r.Err? <==> size.Some? && size.value < 0
    ensures size.Some? && size.value > 0 ==> r.Ok? && IsChunking(r.value, xs, size.value)
  {
    if size.Some? && size.value < 0 {
      return Err(ValueError("Stop argument for islice() must be None or an integer"));
    }
    var chunks: seq<seq<T>> := [];
    var pos := 0;
    while true
      invariant 0 <= pos <= |xs|
      invariant size.Some? && size.value > 0 ==> chunks + ChunksOf(xs[pos..], size.value) == ChunksOf(xs, size.value)
      invariant size == Some(0) ==> chunks == [] && pos == 0
      invariant size.None? ==> chunks == (if pos == 0 then [] else [xs]) && (pos == 0 || pos == |xs|)
      decreases |xs| - pos
    {
      var stop := if size.None? || pos + size.value > |xs| then |xs| else pos + size.value;
      var chunk := xs[pos..stop];
      if |chunk| == 0 {
        break;
      }
      if size.Some? {
        var rest := xs[pos..];
        if |rest| <= size.value {
          assert chunk == rest && xs[stop..] == [];
        } else {
          assert rest[..size.value] == chunk && rest[size.value..] == xs[stop..];
        }
      } else {
        assert chunk == xs;
      }
      chunks := chunks + [chunk];
      pos := stop;
    }
    if size.Some? && size.value > 0 {
      assert xs[pos..] == [] && chunks + [] == chunks;
      ChunksOfIsChunking(xs, size.value);
    }
    r := Ok(chunks);
  }

  /** The number of chunks is `ceil(len(xs) / n)`. */
  lemma ChunkCount<T>(chunks: seq<seq<T>>, xs: seq<T>, n: int)
    requires n > 0 && IsChunking(chunks, xs, n)
    ensures |chunks| == (|xs| + n - 1) / n
  {
    if chunks == [] {
      DivUnique(n - 1, n, 0);
    } else {
      var k := |chunks| - 1;
      var full := chunks[..k];
      assert chunks == full + [chunks[k]];
      assert forall i :: 0 <= i < |full| ==> |full[i]| == n;
      ConcatAppend(full, chunks[k]);
      ConcatLength(full, n);
      CeilOfPartialLast(k, n, |chunks[k]|);
    }
  }

  lemma CeilOfPartialLast(k: nat, n: int, m: int)
    requires n > 0 && 1 <= m <= n
    ensures (k * n + m + n - 1) / n == k + 1
  {
    assert (k + 1) * n == k * n + n;
    assert (k + 2) * n == k * n + 2 * n;
    DivUnique(k * n + m + n - 1, n, k + 1);
  }

  // ---------------------------------------------------------------------------
  // flatten

  /** An element of a nested list: a number, a text or byte string (both kept
      whole) or a further iterable. */
  datatype Item = Number(n: int) | Text(s: string) | Bytes(b: seq<bv8>) | Many(items: seq<Item>)

  /** `list(flatten(xs))`: the leaves, left to right. */
  function Flatten(xs: seq<Item>): seq<Item>
    decreases xs
  {
    if xs == [] then [] else Leaves(xs[0]) + Flatten(xs[1..])
  }

  /** The leaves of one item: a nested iterable flattened, anything else itself. */
  function Leaves(x: Item): seq<Item>
    decreases x
  {
    match x
    case Many(items) => Flatten(items)
    case _ => [x]
  }

  /** `flatten` yields only leaves: numbers, text and byte strings. */
  lemma {:induction false} FlattenOnlyLeaves(xs: seq<Item>)
    ensures forall y :: y in Flatten(xs) ==> !y.Many?
    decreases xs
  {
    if xs != [] {
      if xs[0].Many? {
        FlattenOnlyLeaves(xs[0].items);
      }
      FlattenOnlyLeaves(xs[1..]);
    }
  }

  lemma {:induction false} FlattenAppend(a: seq<Item>, b: seq<Item>)
    ensures Flatten(a + b) == Flatten(a) + Flatten(b)
    decreases |a|
  {
    if a == [] {
      assert a + b == b;
    } else {
      assert (a + b)[0] == a[0] && (a + b)[1..] == a[1..] + b;
      FlattenAppend(a[1..], b);
    }
  }

  /** A list with no nested iterables, strings included, comes back as it was. */
  lemma {:induction false} FlattenFlat(xs: seq<Item>)
    requires forall y :: y in xs ==> !y.Many?
    ensures Flatten(xs) == xs
    decreases |xs|
  {
    if xs != [] {
      FlattenFlat(xs[1..]);
    }
  }

  lemma FlattenIdempotent(xs: seq<Item>)
    ensures Flatten(Flatten(xs)) == Flatten(xs)
  {
    FlattenOnlyLeaves(xs);
    FlattenFlat(Flatten(xs));
  }

  /** The number of leaves below `xs`. */
  function LeafCount(xs: seq<Item>): nat
    decreases xs
  {
    if xs == [] then 0
    else (if xs[0].Many? then LeafCount(xs[0].items) else 1) + LeafCount(xs[1..])
  }

  lemma {:induction false} FlattenKeepsEveryLeaf(xs: seq<Item>)
    ensures |Flatten(xs)| == LeafCount(xs)
    decreases xs
  {
    if xs != [] {
      if xs[0].Many? {
        FlattenKeepsEveryLeaf(xs[0].items);
      }
      FlattenKeepsEveryLeaf(xs[1..]);
    }
  }

  /** `flatten([[2, 3], [4], [5, 6, 7]])` yields 2, 3, 4, 5, 6, 7, and so
      for any six numbers in that shape. */
  lemma FlattenExample(n2: int, n3: int, n4: int, n5: int, n6: int, n7: int)
    ensures Flatten([Many([Number(n2), Number(n3)]), Many([Number(n4)]),
                     Many([Number(n5), Number(n6), Number(n7)])]) ==
            [Number(n2), Number(n3), Number(n4), Number(n5), Number(n6), Number(n7)]
  {
    var a := [Number(n2), Number(n3)];
    var b := [Number(n4)];
    var c := [Number(n5), Number(n6), Number(n7)];
    FlattenFlat(a);
    FlattenFlat(b);
    FlattenFlat(c);
    var bc := [Many(b), Many(c)];
    var xs := [Many(a)] + bc;
    assert bc[0] == Many(b) && bc[1..] == [Many(c)] && [Many(c)][1..] == [];
    assert xs[0] == Many(a) && xs[1..] == bc;
    assert Flatten([Many(c)]) == c;
    assert Flatten(bc) == b + c;
    assert Flatten(xs) == a + (b + c);
  }
}
