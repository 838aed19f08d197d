/** cogj's `IdentityMixin`: every instance gets an integer id the first time
    it is asked for one, taken from a counter shared by all instances with
    the same class name. Ids count up from 0 in order of first access. */
module Identity {
  import opened Wrappers

  /** The value a counter dictionary holds for `name`; unseen names are at 0
      (`defaultdict(itertools.count)`). */
  function CounterValue(next: map<string, nat>, name: string): nat {
    if name in next then next[name] else 0
  }

  /** The ids handed out when instances of the classes `names` ask for their
      ids for the first time, one after another, starting from `next`. */
  function Issue(next: map<string, nat>, names: seq<string>): (ids: seq<nat>)
    ensures |ids| == |names|
    decreases |names|
  {
    if names == [] then []
    else
      var id := CounterValue(next, names[0]);
      [id] + Issue(next[names[0] := id + 1], names[1..])
  }

  /** How often `x` occurs in `s`. */
  function Occurrences(s: seq<string>, x: string): nat
    decreases |s|
  {
    if s == [] then 0 else (if s[0] == x then 1 else 0) + Occurrences(s[1..], x)
  }

  /** The i-th id handed out is its class's starting value plus the number
      of earlier instances of the same class: ids of one class count up by
      one in order of first access. */
  lemma {:induction false} IssueCounts(next: map<string, nat>, names: seq<string>)
    ensures forall i :: 0 <= i < |names| ==>
      Issue(next, names)[i] == CounterValue(next, names[i]) + Occurrences(names[..i], names[i])
    decreases |names|
  {
    if names != [] {
      var id := CounterValue(next, names[0]);
      var next' := next[names[0] := id + 1];
      IssueCounts(next', names[1..]);
      forall i | 0 <= i < |names|
        ensures Issue(next, names)[i] == CounterValue(next, names[i]) + Occurrences(names[..i], names[i])
      {
        if i > 0 {
          assert names[..i][1..] == names[1..][..i - 1];
          assert names[1..][i - 1] == names[i];
        }
      }
    }
  }

  /** Two instances of the same class never share an id, and the one that
      asked first has the smaller. */
  lemma SameClassIdsIncrease(next: map<string, nat>, names: seq<string>, i: int, j: int)
    requires 0 <= i < j < |names| && names[i] == names[j]
    ensures Issue(next, names)[i] < Issue(next, names)[j]
  {
    IssueCounts(next, names);
    OccurrencesGrow(names, i, j);
  }

  lemma {:induction false} OccurrencesGrow(names: seq<string>, i: int, j: int)
    requires 0 <= i < j <= |names|
    ensures Occurrences(names[..i], names[i]) < Occurrences(names[..j], names[i])
    decreases |names|
  {
    if i > 0 {
      OccurrencesGrow(names[1..], i - 1, j - 1);
      assert names[..i][1..] == names[1..][..i - 1];
      assert names[..j][1..] == names[1..][..j - 1];
    } else {
      OccurrencesAtLeast(names[..j], names[0]);
    }
  }

  lemma OccurrencesAtLeast(s: seq<string>, x: string)
    requires s != [] && s[0] == x
    ensures Occurrences(s, x) >= 1
  {
  }

  /** The shared `counters` dictionary: for each class name, the next id its
      `itertools.count()` will give. A name not yet seen is at 0. */
  class Counters {
    var next: map<string, nat>

    constructor ()
      ensures next == map[]
    {
      next := map[];
    }

    /** The value `next(counters[name])` would return. */
    function Peek(name: string): nat
      reads this
    {
      CounterValue(next, name)
    }

    /** `next(self.counters[name])`: the counter's value, which then moves on
        by one; the counters of other names stay where they were. */
    method Take(name: string) returns (id: nat)
      modifies this
      ensures id == old(Peek(name))
      ensures next == old(next)[name := id + 1]
      ensures forall other :: other != name ==> Peek(other) == old(Peek(other))
    {
      id := Peek(name);
      next := next[name := id + 1];
    }
  }

  /** An instance of a class using the mixin, with its `_ident` once set. */
  class Identified {
    const className: string
    var ident: Option<nat>

    constructor (className: string)
      ensures this.className == className && ident.None?
    {
      this.className := className;
      ident := None;
    }

    /** The `ident` property: the stored id, or on first access the next
        value of the counter for this class name, stored for later. */
    method Ident(counters: Counters) returns (id: nat)
      modifies this, counters
      ensures old(ident).Some? ==> id == old(ident).value && ident == old(ident) && counters.next == old(counters.next)
      ensures old(ident).None? ==>
        id == old(counters.Peek(className)) && ident == Some(id) &&
        counters.next == old(counters.next)[className := id + 1]
    {
      if ident.Some? {
        return ident.value;
      }
      id := counters.Take(className);
      ident := Some(id);
    }
  }

  /** Two instances of one class asked for their ids in turn get consecutive
      ids, in the order they were asked, whenever they were created; asking
      again gives the same ids. */
  method FirstAccessOrder(counters: Counters, a: Identified, b: Identified)
    returns (ia: nat, ib: nat, again: nat)
    requires a != b && a.className == b.className
    requires a.ident.None? && b.ident.None?
    modifies counters, a, b
    ensures ia == old(counters.Peek(a.className)) && ib == ia + 1
    ensures again == ia
    ensures counters.Peek(a.className) == ib + 1
  {
    ia := a.Ident(counters);
    ib := b.Ident(counters);
    again := a.Ident(counters);
  }

  /** Instances of different classes draw from different counters: each
      takes its own counter's value and leaves the other's alone. */
  method IndependentCounters(counters: Counters, a: Identified, b: Identified)
    returns (ia: nat, ib: nat)
    requires a != b && a.className != b.className
    requires a.ident.None? && b.ident.None?
    modifies counters, a, b
    ensures ia == old(counters.Peek(a.className))
    ensures ib == old(counters.Peek(b.className))
  {
    ia := a.Ident(counters);
    ib := b.Ident(counters);
  }

  /** The class names of some instances, in order. */
  function ClassNames(objs: seq<Identified>): (names: seq<string>)
    ensures |names| == |objs| && forall i :: 0 <= i < |objs| ==> names[i] == objs[i].className
  {
    seq(|objs|, i requires 0 <= i < |objs| => objs[i].className)
  }

  /** The first id handed out, then the rest from the advanced counter. */
  lemma IssueCons(next: map<string, nat>, names: seq<string>)
    requires names != []
    ensures Issue(next, names) ==
      [CounterValue(next, names[0])] + Issue(next[names[0] := CounterValue(next, names[0]) + 1], names[1..])
  {
  }

  /** Asking distinct fresh instances for their ids in turn hands out
      exactly `Issue` of their class names. */
  method AccessAll(counters: Counters, objs: seq<Identified>) returns (ids: seq<nat>)
    requires forall i, j :: 0 <= i < j < |objs| ==> objs[i] != objs[j]
    requires forall i :: 0 <= i < |objs| ==> objs[i].ident.None?
    modifies counters, objs
    ensures ids == Issue(old(counters.next), ClassNames(objs))
  {
    ghost var names := ClassNames(objs);
    ids := [];
    var k := 0;
    while k < |objs|
      invariant 0 <= k <= |objs|
      invariant forall i :: k <= i < |objs| ==> objs[i].ident.None?
      invariant ids + Issue(counters.next, names[k..]) == Issue(old(counters.next), names)
    {
      ghost var rest := names[k..];
      assert rest[0] == objs[k].className && rest[1..] == names[k + 1..];
      IssueCons(counters.next, rest);
      var id := objs[k].Ident(counters);
      ids := ids + [id];
      k := k + 1;
    }
  }
}
