/** A node of the R-tree: its bounds, a lazily cached centre, its children and
    the (literal) intersection test and range search it offers. */
module RTreeNode {
  import opened Wrappers
  import opened Floats
  import opened Seqs

  /** A bounds 4-tuple `(b0, b1, b2, b3)`, read as `(minx, miny, maxx, maxy)`. */
  datatype Bounds = Bounds(b0: Float, b1: Float, b2: Float, b3: Float)

  datatype Point = Point(x: Float, y: Float)

  /** The bounds a node gets when none are given: `(-inf, -inf, inf, inf)`. */
  const Unbounded := Bounds(NegInf, NegInf, PosInf, PosInf)

  /** The test `intersects` performs, exactly as written: true when the other
      box lies right of, left of, above (by its top) or below (by its bottom)
      the node's own box. `own` is the node's bounds, `other` the argument's. */
  predicate IntersectsAsWritten(own: Bounds, other: Bounds) {
    Gt(other.b0, own.b2) ||
    Lt(other.b2, own.b0) ||
    Gt(other.b3, own.b1) ||
    Lt(other.b1, own.b3)
  }

  /** The midpoint of a bounds tuple, as `centre` computes it. */
  function CentreOf(b: Bounds): (p: Point)
    ensures b.b0.Finite? && b.b2.Finite? ==> p.x == Finite((b.b0.v + b.b2.v) / 2.0)
    ensures b.b1.Finite? && b.b3.Finite? ==> p.y == Finite((b.b1.v + b.b3.v) / 2.0)
  {
    Point(Midpoint(b.b0, b.b2), Midpoint(b.b1, b.b3))
  }

  /** What `intersects` accepts: another node or a raw bounds tuple. */
  datatype Operand = NodeArg(node: Node) | BoundsArg(bounds: Bounds)

  class Node {
    var bounds: Bounds
    var centreCache: Option<Point>
    var children: seq<Node>
    var parent: Node?
    var level: int
    var isLeaf: bool

    /** This node and every node below it. */
    ghost var Repr: set<Node>
    /** Strictly greater than the rank of every child: the tree is acyclic. */
    ghost var rank: nat

    ghost predicate Valid()
      reads this, Repr
      decreases rank
    {
      this in Repr &&
      forall c :: c in children ==>
        c in Repr && c.Repr <= Repr && c.rank < rank && c.Valid()
    }

    /** `Node(bounds, level, children, parent)`; an absent or empty argument
        takes its default. */
    constructor (bounds: Option<Bounds>, level: Option<int>, children: seq<Node>, parent: Node?)
      requires forall c :: c in children ==> c.Valid()
      ensures Valid() && fresh(Repr - ReprOf(children))
      ensures this.bounds == (if bounds.Some? then bounds.value else Unbounded)
      ensures this.level == (if level.Some? then level.value else 0)
      ensures this.children == children && this.parent == parent
      ensures isLeaf && centreCache == None
    {
      this.bounds := if bounds.Some? then bounds.value else Unbounded;
      this.centreCache := None;
      this.children := children;
      this.parent := parent;
      this.level := if level.Some? then level.value else 0;
      this.isLeaf := true;
      ReprOfContains(children);
      Repr := {this} + ReprOf(children);
      rank := 1 + MaxRank(children);
    }

    /** `node.intersects(other)`: the other node's bounds, or the tuple itself. */
    function Intersects(other: Operand): (r: bool)
      reads this, if other.NodeArg? then {other.node} else {}
      ensures other.BoundsArg? ==> (r <==> IntersectsAsWritten(bounds, other.bounds))
      ensures other.NodeArg? ==> (r <==> IntersectsAsWritten(bounds, other.node.bounds))
    {
      match other
      case NodeArg(n) => IntersectsAsWritten(bounds, n.bounds)
      case BoundsArg(b) => IntersectsAsWritten(bounds, b)
    }

    /** The `centre` property: computed from the bounds on first access and
        cached; later accesses return the cached point. */
    method Centre() returns (p: Point)
      modifies this`centreCache
      ensures old(centreCache).Some? ==> p == old(centreCache).value
      ensures old(centreCache).None? ==> p == CentreOf(bounds)
      ensures centreCache == Some(p)
    {
      if centreCache.None? {
        centreCache := Some(CentreOf(bounds));
      }
      p := centreCache.value;
    }

    /** The centre `centre` would return now, without caching it. */
    function CurrentCentre(): (p: Point)
      reads this
      ensures centreCache.None? ==> p == CentreOf(bounds)
      ensures centreCache.Some? ==> p == centreCache.value
    {
      if centreCache.Some? then centreCache.value else CentreOf(bounds)
    }

    /** `search(bounds)`: for a leaf, the children that intersect `q`, in
        child order; otherwise the concatenated searches of those children.
        Every node returned passes the test against `q`. */
    function Search(q: Bounds): (r: seq<Node>)
      requires Valid()
      reads this, Repr
      ensures forall c :: c in r ==> c in Repr && IntersectsAsWritten(c.bounds, q)
      ensures isLeaf ==> forall c :: c in r ==> c in children
      decreases rank, 1
    {
      var hits := Hits(children, q);
      if isLeaf then hits else SearchEach(hits, q)
    }

    /** The concatenated searches of `cs`, which are children of this node. */
    function SearchEach(cs: seq<Node>, q: Bounds): (r: seq<Node>)
      requires Valid()
      requires forall c :: c in cs ==> c in children
      reads this, Repr
      ensures forall c :: c in r ==> c in Repr && IntersectsAsWritten(c.bounds, q)
      decreases rank, 0, |cs|
    {
      if cs == [] then []
      else cs[0].Search(q) + SearchEach(cs[1..], q)
    }
  }

  /** The nodes of `cs` whose `intersects(q)` holds, in order. */
  function Hits(cs: seq<Node>, q: Bounds): (r: seq<Node>)
    reads cs
    ensures |r| <= |cs|
    ensures forall c :: c in r ==> c in cs && IntersectsAsWritten(c.bounds, q)
    ensures forall c :: c in cs && IntersectsAsWritten(c.bounds, q) ==> c in r
  {
    if cs == [] then []
    else (if IntersectsAsWritten(cs[0].bounds, q) then [cs[0]] else []) + Hits(cs[1..], q)
  }

  /** Every node of `cs` and everything below them. */
  ghost function ReprOf(cs: seq<Node>): set<Node>
    reads cs
  {
    if cs == [] then {} else {cs[0]} + cs[0].Repr + ReprOf(cs[1..])
  }

  lemma {:induction false} ReprOfContains(cs: seq<Node>)
    ensures forall c :: c in cs ==> c in ReprOf(cs) && c.Repr <= ReprOf(cs)
  {
    if cs != [] {
      ReprOfContains(cs[1..]);
    }
  }

  /** The largest rank among `cs` (0 when empty). */
  ghost function MaxRank(cs: seq<Node>): (m: nat)
    reads cs
    ensures forall c :: c in cs ==> c.rank <= m
  {
    if cs == [] then 0
    else
      var rest := MaxRank(cs[1..]);
      if cs[0].rank > rest then cs[0].rank else rest
  }

  /** `intersects` gives the same answer for a node as for its bounds tuple. */
  lemma IntersectsNodeOrBounds(n: Node, o: Node)
    ensures n.Intersects(NodeArg(o)) == n.Intersects(BoundsArg(o.bounds))
  {
  }

  /** The test is not box overlap: a box strictly to the right of another is
      reported as intersecting it. */
  lemma BoxToTheRightIntersects(own: Bounds, other: Bounds)
    requires own.b2.Finite? && other.b0.Finite? && other.b0.v > own.b2.v
    ensures IntersectsAsWritten(own, other)
  {
  }

  /** For finite boxes with `b0 <= b2` and `b1 <= b3`, the test fails exactly
      when the boxes overlap on x and both are the same horizontal segment. */
  lemma {:induction false} IntersectsAsWrittenCharacterised(own: Bounds, other: Bounds)
    requires own.b0.Finite? && own.b1.Finite? && own.b2.Finite? && own.b3.Finite?
    requires other.b0.Finite? && other.b1.Finite? && other.b2.Finite? && other.b3.Finite?
    requires own.b0.v <= own.b2.v && own.b1.v <= own.b3.v
    requires other.b0.v <= other.b2.v && other.b1.v <= other.b3.v
    ensures !IntersectsAsWritten(own, other) <==>
      other.b0.v <= own.b2.v && own.b0.v <= other.b2.v &&
      own.b1.v == own.b3.v == other.b1.v == other.b3.v
  {
  }

  /** A leaf's search holds exactly the children that pass the test against `q`. */
  lemma LeafSearchMembers(n: Node, q: Bounds, c: Node)
    requires n.Valid() && n.isLeaf
    ensures c in n.Search(q) <==> c in n.children && IntersectsAsWritten(c.bounds, q)
  {
  }

  /** The search of a non-leaf includes the whole search of every child that
      passes the test. */
  lemma NonLeafSearchIncludesChildSearch(n: Node, q: Bounds, c: Node)
    requires n.Valid() && !n.isLeaf
    requires c in n.children && IntersectsAsWritten(c.bounds, q)
    ensures forall d :: d in c.Search(q) ==> d in n.Search(q)
  {
    SearchEachIncludes(n, Hits(n.children, q), q, c);
  }

  lemma {:induction false} SearchEachIncludes(n: Node, cs: seq<Node>, q: Bounds, c: Node)
    requires n.Valid() && forall x :: x in cs ==> x in n.children
    requires c in cs
    ensures forall d :: d in c.Search(q) ==> d in n.SearchEach(cs, q)
    decreases |cs|
  {
    if cs[0] != c {
      SearchEachIncludes(n, cs[1..], q, c);
    }
  }

  /** `Hits` is the in-order filter of `cs` by the test: a subsequence of
      `cs` that keeps every passing node as often as `cs` holds it and no
      other node. */
  lemma {:induction false} HitsIsFilter(cs: seq<Node>, q: Bounds)
    ensures IsSubsequence(Hits(cs, q), cs)
    ensures forall c: Node ::
      multiset(Hits(cs, q))[c] == (if IntersectsAsWritten(c.bounds, q) then multiset(cs)[c] else 0)
    decreases |cs|
  {
    if cs != [] {
      HitsIsFilter(cs[1..], q);
      var rest := Hits(cs[1..], q);
      assert cs == [cs[0]] + cs[1..];
      if IntersectsAsWritten(cs[0].bounds, q) {
        assert Hits(cs, q) == [cs[0]] + rest;
        assert ([cs[0]] + rest)[1..] == rest;
      } else {
        assert Hits(cs, q) == rest;
        SubsequenceOfTail(rest, cs);
      }
    }
  }

  /** A leaf's search is its children filtered by the test, in child order
      and with every repeat of a passing child. */
  lemma LeafSearchIsFilter(n: Node, q: Bounds)
    requires n.Valid() && n.isLeaf
    ensures IsSubsequence(n.Search(q), n.children)
    ensures forall c: Node ::
      multiset(n.Search(q))[c] == (if IntersectsAsWritten(c.bounds, q) then multiset(n.children)[c] else 0)
  {
    HitsIsFilter(n.children, q);
  }

  /** Everything a non-leaf's search returns comes from the search of a
      child that passes the test. */
  lemma NonLeafSearchOnlyFromChildren(n: Node, q: Bounds, d: Node)
    requires n.Valid() && !n.isLeaf
    requires d in n.Search(q)
    ensures exists c :: c in n.children && IntersectsAsWritten(c.bounds, q) && d in c.Search(q)
  {
    var c := SearchEachSource(n, Hits(n.children, q), q, d);
  }

  /** The child among `cs` whose search returned `d`. */
  lemma {:induction false} SearchEachSource(n: Node, cs: seq<Node>, q: Bounds, d: Node) returns (c: Node)
    requires n.Valid() && forall x :: x in cs ==> x in n.children
    requires d in n.SearchEach(cs, q)
    ensures c in cs && d in c.Search(q)
    decreases |cs|
  {
    if d in cs[0].Search(q) {
      c := cs[0];
    } else {
      c := SearchEachSource(n, cs[1..], q, d);
    }
  }

  /** The searches of a non-leaf's children follow child order: searching
      `a + b` is searching `a`, then `b`. */
  lemma {:induction false} SearchEachInOrder(n: Node, a: seq<Node>, b: seq<Node>, q: Bounds)
    requires n.Valid() && forall x :: x in a + b ==> x in n.children
    ensures n.SearchEach(a + b, q) == n.SearchEach(a, q) + n.SearchEach(b, q)
    decreases |a|
  {
    if a == [] {
      assert a + b == b;
    } else {
      assert (a + b)[0] == a[0] && (a + b)[1..] == a[1..] + b;
      SearchEachInOrder(n, a[1..], b, q);
    }
  }

  /** A node without children finds nothing. */
  lemma ChildlessSearchIsEmpty(n: Node, q: Bounds)
    requires n.Valid() && n.children == []
    ensures n.Search(q) == []
  {
  }

  /** The centre is not recomputed when the bounds change after the first access. */
  method CentreAfterBoundsChange(n: Node, b: Bounds) returns (before: Point, after: Point)
    modifies n
    ensures before == after
    ensures old(n.centreCache).None? ==> after == CentreOf(old(n.bounds))
  {
    before := n.Centre();
    n.bounds := b;
    after := n.Centre();
  }
}
