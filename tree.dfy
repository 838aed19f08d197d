/** The R-tree builder's shape arithmetic, its stable argsort and packing base
    case, and the tree with its lazily created root. */
module RTree {
  import opened Wrappers
  import opened Floats
  import opened RTreeNode
  import opened PyText
  import opened Arith

  // ---------------------------------------------------------------------------
  // Integer arithmetic behind height, n_nodes and n_subtrees

  function Pow(b: int, e: nat): int {
    if e == 0 then 1 else b * Pow(b, e - 1)
  }

  lemma {:induction false} PowPositive(b: int, e: nat)
    requires b >= 1
    ensures Pow(b, e) >= 1
  {
    if e > 0 {
      PowPositive(b, e - 1);
    }
  }

  /** `math.ceil(a / d)` for a non-zero integer divisor, without rounding. */
  function CeilDiv(a: int, d: int): (q: int)
    requires d != 0
    ensures d > 0 ==> q * d >= a && (q - 1) * d < a
  {
    if d > 0 then -((-a) / d) else -(a / (-d))
  }

  lemma CeilDivAtLeastOne(a: int, d: int)
    requires a >= 1 && d >= 1
    ensures CeilDiv(a, d) >= 1
  {
    var q := CeilDiv(a, d);
    if q <= 0 {
      MulMono(d, q, 0);
    }
  }

  lemma CeilDivAtMost(a: int, d: int, k: int)
    requires d >= 1 && a <= k * d
    ensures CeilDiv(a, d) <= k
  {
    var q := CeilDiv(a, d);
    if q > k {
      MulMono(d, k, q - 1);
    }
  }

  lemma CeilDivShrinks(n: int, b: int)
    requires n >= 2 && b >= 2
    ensures 1 <= CeilDiv(n, b) < n
  {
    CeilDivAtLeastOne(n, b);
    MulMono(n - 1, 2, b);
    CeilDivAtMost(n, b, n - 1);
  }

  /** The least `h` with `b^h >= n`: `ceil(log_b(n))` on integers. */
  function CeilLog(n: int, b: int): (h: nat)
    requires n >= 1 && b >= 2
    ensures Pow(b, h) >= n
    ensures h == 0 || Pow(b, h - 1) < n
    decreases n
  {
    if n == 1 then 0
    else
      var m := CeilDiv(n, b);
      CeilDivShrinks(n, b);
      var h' := CeilLog(m, b);
      CeilLogStep(n, b, m, h');
      1 + h'
  }

  lemma CeilLogStep(n: int, b: int, m: int, h: nat)
    requires n >= 2 && b >= 2 && m == CeilDiv(n, b)
    requires Pow(b, h) >= m && (h == 0 || Pow(b, h - 1) < m)
    ensures Pow(b, h + 1) >= n && Pow(b, h) < n
  {
    var p := Pow(b, h);
    assert Pow(b, h + 1) == b * p;
    StepUp(n, b, m, p);
    if h > 0 {
      var p' := Pow(b, h - 1);
      assert p == b * p';
      StepDown(n, b, m, p');
    }
  }

  lemma StepUp(n: int, b: int, m: int, p: int)
    requires b >= 1 && m * b >= n && p >= m
    ensures b * p >= n
  {
    MulMono(b, m, p);
  }

  lemma StepDown(n: int, b: int, m: int, p: int)
    requires b >= 1 && (m - 1) * b < n && p < m
    ensures b * p < n
  {
    MulMono(b, p, m - 1);
  }

  /** `isqrt(m)`: the largest `r` with `r * r <= m`. */
  function FloorSqrt(m: nat): (r: nat)
    ensures r * r <= m < (r + 1) * (r + 1)
  {
    if m == 0 then 0
    else
      var s := FloorSqrt(m - 1);
      if (s + 1) * (s + 1) <= m then s + 1 else s
  }

  /** `sum(ceil(n / min^k) for k in 1..h)`. */
  function SumCeilDivPowers(n: int, minItems: int, h: nat): int
    requires minItems != 0
  {
    if h == 0 then 0
    else
      PowNonZero(minItems, h);
      SumCeilDivPowers(n, minItems, h - 1) + CeilDiv(n, Pow(minItems, h))
  }

  lemma {:induction false} PowNonZero(b: int, e: nat)
    requires b != 0
    ensures Pow(b, e) != 0
  {
    if e > 0 {
      PowNonZero(b, e - 1);
    }
  }

  // ---------------------------------------------------------------------------
  // Sorting directions and keys

  /** The `sort_direction` argument: a string or an integer. */
  datatype Direction = Axis(name: string) | Index(i: int)

  /** `{'x': 0, 'y': 1}[d]`, falling back to `int(d)`. */
  function SortIndex(d: Direction): (r: Result<int>)
    ensures d == Axis("x") ==> r == Ok(0)
    ensures d == Axis("y") ==> r == Ok(1)
    ensures d.Index? ==> r == Ok(d.i)
    ensures d.Axis? && d.name != "x" && d.name != "y" ==> r == ParseInt(d.name)
  {
    match d
    case Axis(name) =>
      if name == "x" then Ok(0)
      else if name == "y" then Ok(1)
      else ParseInt(name)
    case Index(i) => Ok(i)
  }

  /** `point[k]` on a two-field named tuple, negative indices included. */
  function Coordinate(p: Point, k: int): Result<Float> {
    if k == 0 || k == -2 then Ok(p.x)
    else if k == 1 || k == -1 then Ok(p.y)
    else Err(IndexError("tuple index out of range"))
  }

  /** `xs[i]` with Python's negative indexing. */
  function PyIndex<T>(xs: seq<T>, i: int): Result<T> {
    if 0 <= i < |xs| then Ok(xs[i])
    else if -|xs| <= i < 0 then Ok(xs[|xs| + i])
    else Err(IndexError("list index out of range"))
  }

  // ---------------------------------------------------------------------------
  // Stable sort on (item, key) pairs, as `sorted(..., key=...)` does

  /** Inserts `x` before the first element whose key is not smaller. */
  function Insert<T>(x: (T, Float), s: seq<(T, Float)>): seq<(T, Float)> {
    if s == [] || !Lt(s[0].1, x.1) then [x] + s
    else [s[0]] + Insert(x, s[1..])
  }

  function SortByKey<T>(s: seq<(T, Float)>): seq<(T, Float)> {
    if s == [] then [] else Insert(s[0], SortByKey(s[1..]))
  }

  predicate NoNaNKey<T>(s: seq<(T, Float)>) {
    forall i :: 0 <= i < |s| ==> !s[i].1.NaN?
  }

  predicate SortedByKey<T>(s: seq<(T, Float)>) {
    forall i, j :: 0 <= i < j < |s| ==> !Lt(s[j].1, s[i].1)
  }

  /** The elements of `s` whose key is `k`, in order. */
  function WithKey<T>(s: seq<(T, Float)>, k: Float): seq<(T, Float)> {
    if s == [] then []
    else (if s[0].1 == k then [s[0]] else []) + WithKey(s[1..], k)
  }

  lemma {:induction false} WithKeyAppend<T>(a: seq<(T, Float)>, b: seq<(T, Float)>, k: Float)
    ensures WithKey(a + b, k) == WithKey(a, k) + WithKey(b, k)
    decreases |a|
  {
    if a == [] {
      assert a + b == b;
    } else {
      WithKeyAppend(a[1..], b, k);
      var c := a + b;
      assert c[0] == a[0] && c[1..] == a[1..] + b;
      var h := if a[0].1 == k then [a[0]] else [];
      calc {
        WithKey(c, k);
        h + WithKey(c[1..], k);
        h + (WithKey(a[1..], k) + WithKey(b, k));
        (h + WithKey(a[1..], k)) + WithKey(b, k);
      }
    }
  }

  lemma {:induction false} InsertMultiset<T>(x: (T, Float), s: seq<(T, Float)>)
    ensures multiset(Insert(x, s)) == multiset(s) + multiset{x}
    decreases |s|
  {
    if s != [] && Lt(s[0].1, x.1) {
      InsertMultiset(x, s[1..]);
      assert s == [s[0]] + s[1..];
    }
  }

  lemma {:induction false} InsertSorted<T>(x: (T, Float), s: seq<(T, Float)>)
    requires !x.1.NaN? && NoNaNKey(s) && SortedByKey(s)
    ensures NoNaNKey(Insert(x, s)) && SortedByKey(Insert(x, s))
    decreases |s|
  {
    InsertMultiset(x, s);
    if s == [] || !Lt(s[0].1, x.1) {
      var r := [x] + s;
      forall i, j | 0 <= i < j < |r| ensures !Lt(r[j].1, r[i].1) {
        if i == 0 {
          LtStrictTotal(s[j - 1].1, s[0].1, x.1);
          LtStrictTotal(x.1, s[0].1, s[j - 1].1);
        }
      }
    } else {
      InsertSorted(x, s[1..]);
      InsertMultiset(x, s[1..]);
      var t := Insert(x, s[1..]);
      var r := [s[0]] + t;
      forall j | 0 <= j < |t| ensures !Lt(t[j].1, s[0].1) {
        assert t[j] in multiset(t);
        if t[j] == x {
          LtStrictTotal(x.1, s[0].1, x.1);
        } else {
          assert t[j] in multiset(s[1..]);
          var m :| 0 <= m < |s[1..]| && s[1..][m] == t[j];
          assert s[m + 1] == t[j];
        }
      }
      forall i, j | 0 <= i < j < |r| ensures !Lt(r[j].1, r[i].1) {
        if i == 0 {
          assert r[j] == t[j - 1];
        } else {
          assert r[i] == t[i - 1] && r[j] == t[j - 1];
        }
      }
    }
  }

  lemma {:induction false} InsertWithKey<T>(x: (T, Float), s: seq<(T, Float)>, k: Float)
    requires !x.1.NaN? && NoNaNKey(s)
    ensures WithKey(Insert(x, s), k) == (if x.1 == k then [x] else []) + WithKey(s, k)
    decreases |s|
  {
    if s == [] || !Lt(s[0].1, x.1) {
      WithKeyAppend([x], s, k);
    } else {
      InsertWithKey(x, s[1..], k);
      var t := Insert(x, s[1..]);
      WithKeyAppend([s[0]], t, k);
      assert s == [s[0]] + s[1..];
      WithKeyAppend([s[0]], s[1..], k);
      if x.1 == k {
        assert s[0].1 != k by {
          LtStrictTotal(s[0].1, x.1, x.1);
        }
      }
    }
  }

  /** `sorted` with a key: a permutation, ordered by key, and stable (the
      elements sharing a key keep their relative order). */
  lemma {:induction false} SortByKeyCorrect<T>(s: seq<(T, Float)>)
    requires NoNaNKey(s)
    ensures multiset(SortByKey(s)) == multiset(s)
    ensures SortedByKey(SortByKey(s)) && NoNaNKey(SortByKey(s))
    ensures forall k :: WithKey(SortByKey(s), k) == WithKey(s, k)
    decreases |s|
  {
    if s != [] {
      SortByKeyCorrect(s[1..]);
      InsertMultiset(s[0], SortByKey(s[1..]));
      InsertSorted(s[0], SortByKey(s[1..]));
      assert s == [s[0]] + s[1..];
      forall k ensures WithKey(SortByKey(s), k) == WithKey(s, k) {
        InsertWithKey(s[0], SortByKey(s[1..]), k);
        WithKeyAppend([s[0]], s[1..], k);
      }
    }
  }

  function Firsts<T>(s: seq<(T, Float)>): (r: seq<T>)
    ensures |r| == |s| && forall i :: 0 <= i < |s| ==> r[i] == s[i].0
  {
    seq(|s|, i requires 0 <= i < |s| => s[i].0)
  }

  lemma FirstsCons<T>(x: (T, Float), s: seq<(T, Float)>)
    ensures Firsts([x] + s) == [x.0] + Firsts(s)
  {
    var l := Firsts([x] + s);
    var r := [x.0] + Firsts(s);
    forall i | 0 <= i < |l| ensures l[i] == r[i] {
      if i > 0 {
        assert ([x] + s)[i] == s[i - 1];
      }
    }
  }

  lemma {:induction false} FirstsInsert<T>(x: (T, Float), s: seq<(T, Float)>)
    ensures multiset(Firsts(Insert(x, s))) == multiset(Firsts(s)) + multiset{x.0}
    decreases |s|
  {
    if s == [] || !Lt(s[0].1, x.1) {
      FirstsCons(x, s);
    } else {
      FirstsInsert(x, s[1..]);
      FirstsCons(s[0], Insert(x, s[1..]));
      assert s == [s[0]] + s[1..];
      FirstsCons(s[0], s[1..]);
    }
  }

  /** Sorting permutes the items: the first components keep their multiset. */
  lemma {:induction false} FirstsSortByKey<T>(s: seq<(T, Float)>)
    ensures multiset(Firsts(SortByKey(s))) == multiset(Firsts(s))
    decreases |s|
  {
    if s != [] {
      FirstsSortByKey(s[1..]);
      FirstsInsert(s[0], SortByKey(s[1..]));
      assert s == [s[0]] + s[1..];
      FirstsCons(s[0], s[1..]);
    }
  }

  // ---------------------------------------------------------------------------
  // The builder

  /** The two results `topology` can give. */
  datatype TopologyView =
    | AsTuple(height: nat, numNodes: int, numSubtrees: nat)
    | AsDict(entries: map<string, int>)

  /** The defaults of `TreeBuilder(min_items=4, max_items=10)`. */
  const DefaultMinItems := 4
  const DefaultMaxItems := 10

  class TreeBuilder {
    var maxItems: int
    var minItems: int
    /** `_nodes`: None until the builder is called with nodes. */
    var nodes: Option<seq<Node>>

    constructor Configured(minItems: int, maxItems: int)
      requires 2 * minItems <= maxItems
      ensures this.minItems == minItems && this.maxItems == maxItems && nodes == None
    {
      this.minItems := minItems;
      this.maxItems := maxItems;
      this.nodes := None;
    }

    /** `TreeBuilder(min_items, max_items)`: a ValueError when
        `min_items > max_items / 2`. */
    static method Create(minItems: int, maxItems: int) returns (r: Result<TreeBuilder>)
      ensures r.Err? <==> 2 * minItems > maxItems
      ensures r.Err? ==> r.error.ValueError?
      ensures r.Ok? ==> fresh(r.value) && r.value.nodes == None
      ensures r.Ok? ==> r.value.minItems == minItems && r.value.maxItems == maxItems
    {
      if 2 * minItems > maxItems {
        r := Err(ValueError("min_items must be <= max_items / 2"));
      } else {
        var b := new TreeBuilder.Configured(minItems, maxItems);
        r := Ok(b);
      }
    }

    /** `TreeBuilder()`: the defaults satisfy the check, so a builder with
        four to ten items per node always results. */
    static method CreateDefault() returns (r: Result<TreeBuilder>)
      ensures r.Ok? && fresh(r.value) && r.value.nodes == None
      ensures r.value.minItems == DefaultMinItems && r.value.maxItems == DefaultMaxItems
    {
      r := Create(DefaultMinItems, DefaultMaxItems);
    }

    /** `builder(nodes)` stores the nodes. */
    method Call(ns: seq<Node>)
      modifies this`nodes
      ensures nodes == Some(ns)
    {
      nodes := Some(ns);
    }

    /** `height(n)`: the least `h` with `max_items^h >= n`. A falsy `n` reads
        the missing `count` attribute; a negative `n` or a base below 1 is a
        math domain error and base 1 divides by `log(1) == 0`. */
    function Height(n: Option<int>): (r: Result<nat>)
      reads this
      ensures r.Ok? <==> n.Some? && n.value >= 1 && maxItems >= 2
      ensures r.Ok? ==> Pow(maxItems, r.value) >= n.value
      ensures r.Ok? && r.value > 0 ==> Pow(maxItems, r.value - 1) < n.value
      ensures n == None || n == Some(0) ==> r == Err(AttributeError("count"))
    {
      if n.None? || n.value == 0 then Err(AttributeError("count"))
      else if n.value < 0 || maxItems <= 0 then Err(ValueError("math domain error"))
      else if maxItems == 1 then Err(ZeroDivisionError)
      else Ok(CeilLog(n.value, maxItems))
    }

    /** `n_nodes(n)`: `sum(ceil(n / min_items^k) for k in 1..height(n))`. */
    function NNodes(n: Option<int>): (r: Result<int>)
      reads this
      ensures Height(n).Err? ==> r == Err(Height(n).error)
      ensures r.Ok? <==> Height(n).Ok? && (minItems != 0 || Height(n).value == 0)
      ensures r.Ok? && Height(n).value == 0 ==> r.value == 0
      ensures r.Ok? && Height(n).value > 0 ==> r.value == SumCeilDivPowers(n.value, minItems, Height(n).value)
    {
      var h :- Height(n);
      if h == 0 then Ok(0)
      else if minItems == 0 then Err(ZeroDivisionError)
      else Ok(SumCeilDivPowers(n.value, minItems, h))
    }

    /** `n_subtrees(n)`: `floor(sqrt(ceil(n / max_items^(height(n) - 1))))`,
        where a height of 0 makes the divisor `1 / max_items`. */
    function NSubtrees(n: Option<int>): (r: Result<nat>)
      reads this
      ensures r.Ok? <==> Height(n).Ok?
      ensures r.Ok? ==> r.value * r.value <= SubtreeItems(n.value, maxItems)
      ensures r.Ok? ==> SubtreeItems(n.value, maxItems) < (r.value + 1) * (r.value + 1)
    {
      var h :- Height(n);
      Ok(FloorSqrt(SubtreeItems(n.value, maxItems)))
    }

    /** `topology(n, as_dict)`: the three shape numbers, as a tuple or a dict. */
    function Topology(n: Option<int>, asDict: bool): (r: Result<TopologyView>)
      reads this
      ensures r.Ok? <==> NNodes(n).Ok?
      ensures r.Ok? && !asDict ==>
        r.value == AsTuple(Height(n).value, NNodes(n).value, NSubtrees(n).value)
      ensures r.Ok? && asDict ==>
        r.value.AsDict? && r.value.entries.Keys == {"height", "num_nodes", "num_subtrees"} &&
        r.value.entries["height"] == Height(n).value &&
        r.value.entries["num_nodes"] == NNodes(n).value &&
        r.value.entries["num_subtrees"] == NSubtrees(n).value
    {
      var h :- Height(n);
      var nodes :- NNodes(n);
      var subtrees := NSubtrees(n).value;
      if asDict then Ok(AsDict(map["height" := h, "num_nodes" := nodes, "num_subtrees" := subtrees]))
      else Ok(AsTuple(h, nodes, subtrees))
    }

    /** The indices `argsort` orders: the subset, or every node index when
        the subset is empty. */
    function SortItems(subset: seq<int>): Result<seq<int>>
      reads this
    {
      if subset != [] then Ok(subset)
      else if nodes.None? then Err(TypeError("object of type 'NoneType' has no len()"))
      else Ok(seq(|nodes.value|, i => i))
    }

    /** `self._nodes[i]`. */
    function NodeAt(i: int): Result<Node>
      reads this
    {
      if nodes.None? then Err(TypeError("'NoneType' object is not subscriptable"))
      else PyIndex(nodes.value, i)
    }

    /** The sort key of index `i`: `self._nodes[i].centre[k]`. */
    function KeyOf(i: int, k: int): Result<Float>
      reads this, if nodes.Some? then nodes.value else []
    {
      var node :- NodeAt(i);
      Coordinate(node.CurrentCentre(), k)
    }

    /** The stored nodes, as a set. */
    ghost function NodeSet(): set<Node>
      reads this
    {
      if nodes.Some? then set n | n in nodes.value else {}
    }

    /** The nodes the indices in `items` name. */
    ghost function KeyedNodes(items: seq<int>): set<Node>
      reads this
    {
      set j | 0 <= j < |items| && NodeAt(items[j]).Ok? :: NodeAt(items[j]).value
    }

    /** Every item's key, failing or not, in order. */
    function Keys(items: seq<int>, k: int): (r: seq<Result<Float>>)
      reads this, if nodes.Some? then nodes.value else []
      ensures |r| == |items| && forall j :: 0 <= j < |items| ==> r[j] == KeyOf(items[j], k)
    {
      if items == [] then [] else [KeyOf(items[0], k)] + Keys(items[1..], k)
    }

    /** Each item paired with its key; the first failing key is the error. */
    function Keyed(items: seq<int>, k: int): (r: Result<seq<(int, Float)>>)
      reads this, if nodes.Some? then nodes.value else []
      ensures r.Ok? <==> forall j :: 0 <= j < |items| ==> KeyOf(items[j], k).Ok?
      ensures r.Ok? ==> |r.value| == |items|
      ensures r.Ok? ==> forall j :: 0 <= j < |items| ==>
        r.value[j].0 == items[j] && KeyOf(items[j], k) == Ok(r.value[j].1)
    {
      PairKeys(items, Keys(items, k))
    }

    /** `argsort(direction, subset)`: the indices stably sorted by the
        centre coordinate the direction selects. */
    function Argsort(direction: Direction, subset: seq<int>): (r: Result<seq<int>>)
      reads this, if nodes.Some? then nodes.value else []
      requires ComparableKeys(direction, subset)
    {
      var k :- SortIndex(direction);
      var items :- SortItems(subset);
      var keyed :- Keyed(items, k);
      Ok(Firsts(SortByKey(keyed)))
    }

    /** `argsort` as it runs: `sorted` calls the key once per index, in
        order, until one fails, and each call reads the node's `centre`
        property, which caches the centre on the node. The indices are those
        of `Argsort` before the call; no centre changes its value; when the
        sort succeeds every keyed node has its centre cached, and no node
        outside the keyed ones is touched. */
    method ArgsortCaching(direction: Direction, subset: seq<int>) returns (r: Result<seq<int>>)
      requires ComparableKeys(direction, subset)
      modifies NodeSet()`centreCache
      ensures r == old(Argsort(direction, subset))
      ensures forall n :: n in NodeSet() ==> n.CurrentCentre() == old(n.CurrentCentre())
      ensures r.Ok? ==> SortItems(subset).Ok?
      ensures r.Ok? ==>
        forall n :: n in KeyedNodes(SortItems(subset).value) ==> n.centreCache == Some(old(n.CurrentCentre()))
      ensures forall n :: n in NodeSet() && n !in CacheCandidates(direction, subset) ==>
        n.centreCache == old(n.centreCache)
    {
      var k := SortIndex(direction);
      var items := SortItems(subset);
      if k.Ok? && items.Ok? {
        ghost var keys := Keys(items.value, k.value);
        CacheCentres(items.value, k.value);
        forall j | 0 <= j < |items.value|
          ensures KeyOf(items.value[j], k.value) == old(KeyOf(items.value[j], k.value))
        {
          var node := NodeAt(items.value[j]);
          if node.Ok? {
            assert node.value in NodeSet();
          }
        }
        assert Keys(items.value, k.value) == keys;
      }
      r := Argsort(direction, subset);
    }

    /** The key calls of `sorted`, for their side effect: the centre of
        each index's node is read, and so cached, in order, until a key
        fails. */
    method CacheCentres(items: seq<int>, k: int)
      modifies NodeSet()`centreCache
      ensures forall n :: n in NodeSet() ==> n.CurrentCentre() == old(n.CurrentCentre())
      ensures forall n :: n in NodeSet() && n !in KeyedNodes(items) ==> n.centreCache == old(n.centreCache)
      ensures (forall j :: 0 <= j < |items| ==> KeyOf(items[j], k).Ok?) ==>
        forall n :: n in KeyedNodes(items) ==> n.centreCache == Some(old(n.CurrentCentre()))
    {
      var i := 0;
      while i < |items|
        invariant 0 <= i <= |items|
        invariant forall n :: n in NodeSet() ==> n.CurrentCentre() == old(n.CurrentCentre())
        invariant forall n :: n in NodeSet() && n !in KeyedNodes(items[..i]) ==> n.centreCache == old(n.centreCache)
        invariant forall n :: n in KeyedNodes(items[..i]) ==> n.centreCache == Some(old(n.CurrentCentre()))
      {
        KeyedNodesPrefix(items, i);
        var node := NodeAt(items[i]);
        if node.Err? {
          assert KeyOf(items[i], k).Err?;
          return;
        }
        KeyedNodesSnoc(items, i);
        var c := node.value.Centre();
        i := i + 1;
        if Coordinate(c, k).Err? {
          KeyedNodesPrefix(items, i);
          assert KeyOf(items[i - 1], k).Err?;
          return;
        }
      }
      assert items[..i] == items;
    }

    /** The nodes `ArgsortCaching` may cache: those the sorted indices name,
        once the direction and the indices are known. */
    ghost function CacheCandidates(direction: Direction, subset: seq<int>): set<Node>
      reads this
    {
      if SortIndex(direction).Ok? && SortItems(subset).Ok? then KeyedNodes(SortItems(subset).value) else {}
    }

    lemma KeyedNodesSnoc(items: seq<int>, i: int)
      requires 0 <= i < |items| && NodeAt(items[i]).Ok?
      ensures KeyedNodes(items[..i + 1]) == KeyedNodes(items[..i]) + {NodeAt(items[i]).value}
      ensures NodeAt(items[i]).value in NodeSet()
    {
      var a := items[..i + 1];
      assert a[i] == items[i];
      assert forall j :: 0 <= j < i ==> a[j] == items[..i][j];
    }

    lemma KeyedNodesPrefix(items: seq<int>, i: int)
      requires 0 <= i <= |items|
      ensures KeyedNodes(items[..i]) <= KeyedNodes(items)
    {
      forall n | n in KeyedNodes(items[..i])
        ensures n in KeyedNodes(items)
      {
        var j :| 0 <= j < i && NodeAt(items[..i][j]).Ok? && NodeAt(items[..i][j]).value == n;
        assert items[..i][j] == items[j];
      }
    }

    /** No sort key is NaN (Python's ordering is unspecified then). */
    predicate ComparableKeys(direction: Direction, subset: seq<int>)
      reads this, if nodes.Some? then nodes.value else []
    {
      SortIndex(direction).Ok? && SortItems(subset).Ok? ==>
        var keyed := Keyed(SortItems(subset).value, SortIndex(direction).value);
        keyed.Ok? ==> NoNaNKey(keyed.value)
    }

    /** `pack(subset, direction)` in its base case: a subset that fits in one
        node is returned unchanged. The recursive split is unfinished. */
    function Pack(subset: seq<int>, direction: Direction): (r: Result<seq<int>>)
      reads this
      ensures |subset| <= maxItems ==> r == Ok(subset)
      ensures |subset| > maxItems ==> r.Err?
    {
      if |subset| <= maxItems then Ok(subset) else Err(NotImplementedError)
    }
  }

  /** `ceil(n / max_items^(h - 1))`, with `n * max_items` when the height is 0. */
  function SubtreeItems(n: int, maxItems: int): int
    requires n >= 1 && maxItems >= 2
  {
    var h := CeilLog(n, maxItems);
    if h == 0 then n * maxItems
    else
      PowPositive(maxItems, h - 1);
      CeilDiv(n, Pow(maxItems, h - 1))
  }

  // ---------------------------------------------------------------------------
  // Properties of the builder arithmetic

  /** For `n >= 2` the top level holds between 1 and `max_items` items, so
      the number of subtrees is between 1 and `sqrt(max_items)`. */
  lemma SubtreesBounded(b: TreeBuilder, n: int)
    requires n >= 2 && b.maxItems >= 2
    ensures b.NSubtrees(Some(n)).Ok?
    ensures 1 <= b.NSubtrees(Some(n)).value
    ensures b.NSubtrees(Some(n)).value * b.NSubtrees(Some(n)).value <= b.maxItems
  {
    var h := CeilLog(n, b.maxItems);
    assert h >= 1;
    PowPositive(b.maxItems, h - 1);
    var p := Pow(b.maxItems, h - 1);
    assert Pow(b.maxItems, h) == b.maxItems * p;
    CeilDivAtLeastOne(n, p);
    CeilDivAtMost(n, p, b.maxItems);
    var m := CeilDiv(n, p);
    assert SubtreeItems(n, b.maxItems) == m;
    var s := FloorSqrt(m);
    assert s * s <= m < (s + 1) * (s + 1);
  }

  /** With `min_items >= 1`, every level needs at least one node and at most
      `n`: `height <= n_nodes <= height * n`. */
  lemma {:induction false} NodeCountBounds(n: int, minItems: int, h: nat)
    requires n >= 1 && minItems >= 1
    ensures h <= SumCeilDivPowers(n, minItems, h) <= h * n
  {
    if h > 0 {
      NodeCountBounds(n, minItems, h - 1);
      PowPositive(minItems, h);
      var p := Pow(minItems, h);
      CeilDivAtLeastOne(n, p);
      MulMono(n, 1, p);
      CeilDivAtMost(n, p, n);
      assert (h - 1) * n + n == h * n;
    }
  }

  /** A tree of one item has height 0 and needs no nodes. */
  lemma SingleItemShape(b: TreeBuilder)
    requires b.maxItems >= 2
    ensures b.Height(Some(1)) == Ok(0)
    ensures b.NNodes(Some(1)) == Ok(0)
  {
  }

  /** The height is the least one that fits: `max_items^h >= n` fails for `h - 1`. */
  lemma HeightIsLeast(b: TreeBuilder, n: int, g: nat)
    requires n >= 1 && b.maxItems >= 2
    requires Pow(b.maxItems, g) >= n
    ensures b.Height(Some(n)).Ok? && b.Height(Some(n)).value <= g
  {
    var h := b.Height(Some(n)).value;
    if h > g {
      PowMonotone(b.maxItems, g, h - 1);
    }
  }

  lemma {:induction false} PowMonotone(b: int, e1: nat, e2: nat)
    requires b >= 2 && e1 <= e2
    ensures Pow(b, e1) <= Pow(b, e2)
    decreases e2
  {
    if e1 < e2 {
      PowMonotone(b, e1, e2 - 1);
      PowPositive(b, e2 - 1);
    }
  }

  /** `argsort` returns a permutation of the items it sorts, in ascending
      key order, and items with equal keys keep their input order. */
  lemma ArgsortCorrect(b: TreeBuilder, direction: Direction, subset: seq<int>)
    requires b.ComparableKeys(direction, subset)
    requires b.Argsort(direction, subset).Ok?
    ensures SortIndex(direction).Ok? && b.SortItems(subset).Ok?
    ensures multiset(b.Argsort(direction, subset).value) == multiset(b.SortItems(subset).value)
    ensures KeysAscending(b, b.Argsort(direction, subset).value, SortIndex(direction).value)
  {
    var k := SortIndex(direction).value;
    var items := b.SortItems(subset).value;
    var keyed := b.Keyed(items, k).value;
    SortByKeyCorrect(keyed);
    var sorted := SortByKey(keyed);
    FirstsSortByKey(keyed);
    assert Firsts(keyed) == items;
    forall i | 0 <= i < |sorted|
      ensures b.KeyOf(sorted[i].0, k) == Ok(sorted[i].1)
    {
      PairKeyed(b, items, k, keyed, sorted, i);
    }
  }

  /** Each item paired with its key, or the first failing key's error. */
  function PairKeys(items: seq<int>, keys: seq<Result<Float>>): (r: Result<seq<(int, Float)>>)
    requires |keys| == |items|
    ensures r.Ok? <==> forall j :: 0 <= j < |keys| ==> keys[j].Ok?
    ensures r.Ok? ==> |r.value| == |items|
    ensures r.Ok? ==> forall j :: 0 <= j < |items| ==> r.value[j] == (items[j], keys[j].value)
  {
    if items == [] then Ok([])
    else
      var key :- keys[0];
      var rest :- PairKeys(items[1..], keys[1..]);
      Ok([(items[0], key)] + rest)
  }

  /** Every index in `r` has a key and the keys never decrease along `r`. */
  ghost predicate KeysAscending(b: TreeBuilder, r: seq<int>, k: int)
    reads b, if b.nodes.Some? then b.nodes.value else []
  {
    (forall i :: 0 <= i < |r| ==> b.KeyOf(r[i], k).Ok?) &&
    forall i, j :: 0 <= i < j < |r| ==>
      !Lt(b.KeyOf(r[j], k).value, b.KeyOf(r[i], k).value)
  }

  lemma PairKeyed(b: TreeBuilder, items: seq<int>, k: int, keyed: seq<(int, Float)>,
                  sorted: seq<(int, Float)>, i: int)
    requires b.Keyed(items, k) == Ok(keyed)
    requires multiset(sorted) == multiset(keyed)
    requires 0 <= i < |sorted|
    ensures b.KeyOf(sorted[i].0, k) == Ok(sorted[i].1)
  {
    assert sorted[i] in multiset(keyed);
    var j :| 0 <= j < |keyed| && keyed[j] == sorted[i];
  }

  /** Stability: the indices that share a key value come out in input order. */
  lemma ArgsortStable(keyed: seq<(int, Float)>, key: Float)
    requires NoNaNKey(keyed)
    ensures WithKey(SortByKey(keyed), key) == WithKey(keyed, key)
  {
    SortByKeyCorrect(keyed);
  }

  // ---------------------------------------------------------------------------
  // The tree

  class Tree {
    var root: Node?
    var depth: int
    var leafDepth: int
    var count: int

    ghost predicate Valid()
      reads this, if root != null then {root} + root.Repr else {}
    {
      root != null ==> root.Valid()
    }

    /** `Tree()`: no root yet, and depth, leaf depth and count all 0. */
    constructor ()
      ensures Valid()
      ensures root == null && depth == 0 && leafDepth == 0 && count == 0
      ensures Len() == 0
    {
      root := null;
      depth := 0;
      leafDepth := 0;
      count := 0;
    }

    /** `len(tree)` is the item count. */
    function Len(): int
      reads this
    {
      count
    }

    /** The `root` property: the first access creates an empty node and sets
        both depths to 1; later accesses return that same node. */
    method Root() returns (n: Node)
      requires Valid()
      modifies this
      ensures Valid() && root == n && count == old(count)
      ensures old(root) == null ==>
        fresh(n) && n.children == [] && n.bounds == Unbounded && n.level == 0 &&
        n.isLeaf && n.centreCache.None? &&
        depth == 1 && leafDepth == 1
      ensures old(root) != null ==>
        n == old(root) && depth == old(depth) && leafDepth == old(leafDepth)
    {
      if root == null {
        root := new Node(None, None, [], null);
        depth := 1;
        leafDepth := 1;
      }
      n := root;
    }

    /** `search(bounds)`: the root's search; on a tree whose root has not
        been created yet, the new empty root finds nothing. */
    method Search(q: Bounds) returns (r: seq<Node>)
      requires Valid()
      modifies this
      ensures Valid() && root != null && r == root.Search(q)
      ensures count == old(count)
      ensures old(root) == null ==> r == [] && depth == 1 && leafDepth == 1
      ensures old(root) != null ==>
        root == old(root) && depth == old(depth) && leafDepth == old(leafDepth)
    {
      var n := Root();
      r := n.Search(q);
    }
  }
}
