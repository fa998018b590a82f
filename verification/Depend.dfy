// Ordering a target and everything it depends on (src/basic/depend.h).
//
// An edge (a, b) says that a depends on b. The source stores it in b, as a pointer to a in
// `r_dep`, counts for every node how many nodes reach it through `r_dep`, and sorts by that
// count, the largest first. The count of a dependency is strictly larger than the count of
// everything that depends on it, so any order of ties puts dependencies first.
module DependOrder {
  type Target = string
  type Edge = (Target, Target)

  // ---------------------------------------------------------------------------------------
  // Chains of dependencies
  // ---------------------------------------------------------------------------------------

  ghost predicate Chain(e: set<Edge>, p: seq<Target>) {
    forall i :: 0 <= i < |p| - 1 ==> (p[i], p[i + 1]) in e
  }

  ghost predicate DependsOn(e: set<Edge>, x: Target, t: Target) {
    exists p :: Chain(e, p) && |p| >= 2 && p[0] == x && p[|p| - 1] == t
  }

  ghost predicate Acyclic(e: set<Edge>) {
    forall t :: !DependsOn(e, t, t)
  }

  /** Everything that depends on t, directly or not. */
  ghost function Dependants(e: set<Edge>, t: Target): set<Target> {
    set edge | edge in e && DependsOn(e, edge.0, t) :: edge.0
  }

  lemma DirectDependsOn(e: set<Edge>, x: Target, t: Target)
    requires (x, t) in e
    ensures DependsOn(e, x, t)
  {
    var p := [x, t];
    assert Chain(e, p);
  }

  lemma DependsOnExtends(e: set<Edge>, x: Target, d: Target, t: Target)
    requires DependsOn(e, x, d) && (d, t) in e
    ensures DependsOn(e, x, t)
  {
    var p :| Chain(e, p) && |p| >= 2 && p[0] == x && p[|p| - 1] == d;
    var q := p + [t];
    assert Chain(e, q);
  }

  lemma LastLink(e: set<Edge>, x: Target, t: Target) returns (d: Target)
    requires DependsOn(e, x, t)
    ensures (d, t) in e && (x == d || DependsOn(e, x, d))
  {
    var p :| Chain(e, p) && |p| >= 2 && p[0] == x && p[|p| - 1] == t;
    var q := p[..|p| - 1];
    d := q[|q| - 1];
    assert (p[|p| - 2], p[|p| - 1]) in e;
    assert Chain(e, q) by {
      forall i | 0 <= i < |q| - 1 ensures (q[i], q[i + 1]) in e {
        assert (p[i], p[i + 1]) in e;
      }
    }
  }

  lemma DependantsAre(e: set<Edge>, x: Target, t: Target)
    ensures x in Dependants(e, t) <==> DependsOn(e, x, t)
  {
    if DependsOn(e, x, t) {
      var p :| Chain(e, p) && |p| >= 2 && p[0] == x && p[|p| - 1] == t;
      assert (p[0], p[1]) in e;
    }
  }

  lemma ProperSubsetIsSmaller(a: set<Target>, b: set<Target>)
    requires a < b
    ensures |a| < |b|
  {
    assert b == a + (b - a);
    assert b - a != {};
  }

  /** A dependency has strictly more dependants than what depends on it. */
  lemma CountGrows(e: set<Edge>, d: Target, t: Target)
    requires Acyclic(e) && (d, t) in e
    ensures Dependants(e, d) < Dependants(e, t)
    ensures |Dependants(e, d)| < |Dependants(e, t)|
  {
    forall x | x in Dependants(e, d) ensures x in Dependants(e, t) {
      DependantsAre(e, x, d);
      DependsOnExtends(e, x, d, t);
      DependantsAre(e, x, t);
    }
    DirectDependsOn(e, d, t);
    DependantsAre(e, d, t);
    DependantsAre(e, d, d);
    ProperSubsetIsSmaller(Dependants(e, d), Dependants(e, t));
  }

  // ---------------------------------------------------------------------------------------
  // What a caller gives: a function from targets to what they depend on
  // ---------------------------------------------------------------------------------------

  ghost predicate Walk(deps: Target -> seq<Target>, p: seq<Target>) {
    |p| >= 1 && forall i :: 0 <= i < |p| - 1 ==> p[i + 1] in deps(p[i])
  }

  ghost predicate Reachable(deps: Target -> seq<Target>, from: Target, to: Target) {
    exists p :: Walk(deps, p) && p[0] == from && p[|p| - 1] == to
  }

  /** No target that `from` leads to leads back to itself. */
  ghost predicate NoCycleFrom(deps: Target -> seq<Target>, from: Target) {
    forall p :: Walk(deps, p) && |p| >= 2 && Reachable(deps, from, p[0]) ==> p[0] != p[|p| - 1]
  }

  function EdgesOf(deps: Target -> seq<Target>, u: set<Target>): set<Edge> {
    set a, b | a in u && b in deps(a) :: (a, b)
  }

  ghost predicate Closed(deps: Target -> seq<Target>, u: set<Target>) {
    forall a, b :: a in u && b in deps(a) ==> b in u
  }

  lemma ReachableFromItself(deps: Target -> seq<Target>, t: Target)
    ensures Reachable(deps, t, t)
  {
    assert Walk(deps, [t]);
  }

  lemma ReachableExtends(deps: Target -> seq<Target>, from: Target, a: Target, b: Target)
    requires Reachable(deps, from, a) && b in deps(a)
    ensures Reachable(deps, from, b)
  {
    var p :| Walk(deps, p) && p[0] == from && p[|p| - 1] == a;
    var q := p + [b];
    assert Walk(deps, q);
  }

  lemma {:induction false} ClosedHoldsWalks(deps: Target -> seq<Target>, u: set<Target>, p: seq<Target>, i: nat)
    requires Closed(deps, u) && Walk(deps, p) && p[0] in u && i < |p|
    ensures p[i] in u
  {
    if i > 0 {
      ClosedHoldsWalks(deps, u, p, i - 1);
      assert p[i - 1 + 1] in deps(p[i - 1]);
    }
  }

  lemma EdgesAreAcyclic(deps: Target -> seq<Target>, u: set<Target>, from: Target)
    requires NoCycleFrom(deps, from) && forall t :: t in u ==> Reachable(deps, from, t)
    ensures Acyclic(EdgesOf(deps, u))
  {
    forall p | Chain(EdgesOf(deps, u), p) && |p| >= 2 ensures p[0] != p[|p| - 1] {
      ChainIsWalk(deps, u, p);
    }
  }

  lemma ChainIsWalk(deps: Target -> seq<Target>, u: set<Target>, p: seq<Target>)
    requires Chain(EdgesOf(deps, u), p) && |p| >= 2
    ensures Walk(deps, p) && p[0] in u
  {
    assert (p[0], p[1]) in EdgesOf(deps, u);
    forall i | 0 <= i < |p| - 1 ensures p[i + 1] in deps(p[i]) {
      assert (p[i], p[i + 1]) in EdgesOf(deps, u);
    }
  }

  lemma OthersAreNeeded(deps: Target -> seq<Target>, u: set<Target>, from: Target, t: Target)
    requires Closed(deps, u) && from in u && Reachable(deps, from, t) && t != from
    ensures DependsOn(EdgesOf(deps, u), from, t)
  {
    var e := EdgesOf(deps, u);
    var p :| Walk(deps, p) && p[0] == from && p[|p| - 1] == t;
    forall i | 0 <= i < |p| - 1 ensures (p[i], p[i + 1]) in e {
      ClosedHoldsWalks(deps, u, p, i);
      assert p[i + 1] in deps(p[i]);
    }
    assert Chain(e, p);
  }

  // ---------------------------------------------------------------------------------------
  // The order
  // ---------------------------------------------------------------------------------------

  ghost function CountIn(e: set<Edge>): Target -> nat {
    t => |Dependants(e, t)|
  }

  /** Sorted by a key, the largest first. */
  ghost predicate Sorted(key: Target -> nat, r: seq<Target>) {
    forall i, j :: 0 <= i < j < |r| ==> key(r[i]) >= key(r[j])
  }

  ghost predicate EachOnce(r: seq<Target>) {
    forall i, j :: 0 <= i < j < |r| ==> r[i] != r[j]
  }

  /** Whatever the sort does with equal counts, every dependency comes first and the target last. */
  lemma AnySortIsAnOrder(deps: Target -> seq<Target>, from: Target, r: seq<Target>)
    requires NoCycleFrom(deps, from) && EachOnce(r)
    requires forall t :: t in r <==> Reachable(deps, from, t)
    requires Sorted(CountIn(EdgesOf(deps, Elements(r))), r)
    ensures forall i, d :: 0 <= i < |r| && d in deps(r[i]) ==> d in r[..i]
    ensures |r| > 0 && r[|r| - 1] == from
  {
    var u := Elements(r);
    var e := EdgesOf(deps, u);
    EdgesAreAcyclic(deps, u, from);
    ReachableFromItself(deps, from);
    forall a, b | a in u && b in deps(a) ensures b in u {
      ReachableExtends(deps, from, a, b);
    }
    forall i, d | 0 <= i < |r| && d in deps(r[i]) ensures d in r[..i] {
      DependencyIsEarlier(e, r, i, d);
    }
    FromIsLast(deps, from, r, u);
  }

  lemma DependencyIsEarlier(e: set<Edge>, r: seq<Target>, i: nat, d: Target)
    requires Acyclic(e) && Sorted(CountIn(e), r) && i < |r| && d in r && (r[i], d) in e
    ensures d in r[..i]
  {
    CountGrows(e, r[i], d);
    var k :| 0 <= k < |r| && r[k] == d;
    assert k < i;
  }

  lemma FromIsLast(deps: Target -> seq<Target>, from: Target, r: seq<Target>, u: set<Target>)
    requires EachOnce(r) && from in r && u == (Elements(r)) && Closed(deps, u)
    requires forall t :: t in r ==> Reachable(deps, from, t)
    requires Acyclic(EdgesOf(deps, u)) && Sorted(CountIn(EdgesOf(deps, u)), r)
    ensures r[|r| - 1] == from
  {
    var e := EdgesOf(deps, u);
    var k :| 0 <= k < |r| && r[k] == from;
    var last := r[|r| - 1];
    if last != from {
      OthersAreNeeded(deps, u, from, last);
      forall x | x in Dependants(e, from) ensures x in Dependants(e, last) {
        DependantsAre(e, x, from);
        Transitive(e, x, from, last);
        DependantsAre(e, x, last);
      }
      DependantsAre(e, from, last);
      DependantsAre(e, from, from);
      ProperSubsetIsSmaller(Dependants(e, from), Dependants(e, last));
    }
  }

  lemma Transitive(e: set<Edge>, x: Target, y: Target, z: Target)
    requires DependsOn(e, x, y) && DependsOn(e, y, z)
    ensures DependsOn(e, x, z)
  {
    var p :| Chain(e, p) && |p| >= 2 && p[0] == x && p[|p| - 1] == y;
    var q :| Chain(e, q) && |q| >= 2 && q[0] == y && q[|q| - 1] == z;
    var w := p + q[1..];
    forall i | 0 <= i < |w| - 1 ensures (w[i], w[i + 1]) in e {
      if i < |p| - 1 {
        assert (p[i], p[i + 1]) in e;
      } else {
        var j := i - (|p| - 1);
        assert (q[j], q[j + 1]) in e;
      }
    }
    assert Chain(e, w);
  }

  lemma {:induction false} WalksGoEarlier(deps: Target -> seq<Target>, r: seq<Target>, p: seq<Target>, k: nat)
    requires forall i, d :: 0 <= i < |r| && d in deps(r[i]) ==> d in r[..i]
    requires Walk(deps, p) && |p| >= 2 && k < |r| && p[0] == r[k]
    ensures p[|p| - 1] in r[..k]
    decreases |p|
  {
    assert p[1] in deps(p[0]);
    var j :| 0 <= j < k && r[j] == p[1];
    if |p| > 2 {
      var q := p[1..];
      forall i | 0 <= i < |q| - 1 ensures q[i + 1] in deps(q[i]) {
        assert p[i + 1 + 1] in deps(p[i + 1]);
      }
      WalksGoEarlier(deps, r, q, j);
    }
  }

  /** Only targets without a cycle can be ordered at all, so the source asks for no more than it must. */
  lemma OrderNeedsNoCycle(deps: Target -> seq<Target>, from: Target, r: seq<Target>)
    requires EachOnce(r) && forall t :: Reachable(deps, from, t) ==> t in r
    requires forall i, d :: 0 <= i < |r| && d in deps(r[i]) ==> d in r[..i]
    ensures NoCycleFrom(deps, from)
  {
    forall p | Walk(deps, p) && |p| >= 2 && Reachable(deps, from, p[0]) ensures p[0] != p[|p| - 1] {
      var k :| 0 <= k < |r| && r[k] == p[0];
      WalksGoEarlier(deps, r, p, k);
    }
  }

  lemma InsertedInOrder(key: Target -> nat, r: seq<Target>, i: nat, t: Target)
    requires Sorted(key, r) && i <= |r|
    requires i > 0 ==> key(r[i - 1]) >= key(t)
    requires i < |r| ==> key(r[i]) <= key(t)
    ensures Sorted(key, r[..i] + [t] + r[i..])
  {
    var longer := r[..i] + [t] + r[i..];
    assert forall j :: 0 <= j < i ==> key(longer[j]) >= key(t);
    assert forall j :: i < j < |longer| ==> longer[j] == r[j - 1] && key(t) >= key(longer[j]);
  }

  lemma InsertedOnce(r: seq<Target>, i: nat, t: Target)
    requires EachOnce(r) && t !in r && i <= |r|
    ensures EachOnce(r[..i] + [t] + r[i..])
    ensures forall x :: x in r[..i] + [t] + r[i..] <==> x in r || x == t
  {
    InsertedAt(r, i, t, r[..i] + [t] + r[i..]);
  }

  lemma InsertedAt(r: seq<Target>, i: nat, t: Target, longer: seq<Target>)
    requires EachOnce(r) && t !in r && i <= |r| && longer == r[..i] + [t] + r[i..]
    ensures EachOnce(longer) && forall x :: x in longer <==> x in r || x == t
  {
    assert |longer| == |r| + 1 && longer[i] == t;
    assert forall j :: 0 <= j < i ==> longer[j] == r[j];
    assert forall j :: i < j < |longer| ==> longer[j] == r[j - 1];
    forall a, b | 0 <= a < b < |longer|
      ensures longer[a] != longer[b]
    {
      if a == i || b == i {
      } else {
        assert r[if a < i then a else a - 1] != r[if b < i then b else b - 1];
      }
    }
    forall x | x in r
      ensures x in longer
    {
      var j :| 0 <= j < |r| && r[j] == x;
      assert longer[if j < i then j else j + 1] == x;
    }
  }

  function EdgesFrom(t: Target, ds: seq<Target>): set<Edge> {
    set d | d in ds :: (t, d)
  }

  function Elements(ds: seq<Target>): set<Target> {
    set d | d in ds
  }

  /** One more dependency of t queued, recorded and linked. */
  lemma OneMore(t: Target, ds: seq<Target>, i: nat, pending: seq<Target>, items: set<Target>, edges: set<Edge>)
    requires i < |ds|
    ensures pending + ds[..i] + [ds[i]] == pending + ds[..i + 1]
    ensures items + Elements(ds[..i]) + {ds[i]} == items + Elements(ds[..i + 1])
    ensures edges + EdgesFrom(t, ds[..i]) + {(t, ds[i])} == edges + EdgesFrom(t, ds[..i + 1])
  {
    assert ds[..i + 1] == ds[..i] + [ds[i]];
  }

  // ---------------------------------------------------------------------------------------
  // The nodes of the source
  // ---------------------------------------------------------------------------------------

  class DepNode {
    const item: Target
    var rDep: set<DepNode>
    var referenceCount: nat

    constructor (item: Target)
      ensures this.item == item && rDep == {} && referenceCount == 0
    {
      this.item := item;
      rDep := {};
      referenceCount := 0;
    }

    /** The recursion that fills one shared set. Its own assertion about cycles never fails. */
    method RefDepend(root: Target, main: set<DepNode>, ghost g: DepGraph) returns (result: set<DepNode>)
      requires g.Valid() && this in g.container && Acyclic(g.Edges())
      requires item == root || DependsOn(g.Edges(), item, root)
      ensures result == main + g.NodesOf(Dependants(g.Edges(), item))
      decreases Dependants(g.Edges(), item), 1
    {
      ghost var seen: set<DepNode> := {};
      var rest := rDep;
      result := main;
      while rest != {}
        invariant seen + rest == rDep && seen !! rest
        invariant result == main + g.Above(seen)
        decreases rest
      {
        var m :| m in rest;
        result := AddOwner(m, root, result, main, seen, g);
        rest := rest - {m};
        seen := seen + {m};
      }
      g.AboveOwners(this);
    }

    /** The turn of one node that depends on this one directly, with the assertion that it is not the root. */
    method AddOwner(m: DepNode, root: Target, found: set<DepNode>, ghost main: set<DepNode>, ghost seen: set<DepNode>,
                    ghost g: DepGraph) returns (result: set<DepNode>)
      requires g.Valid() && this in g.container && m in rDep && Acyclic(g.Edges())
      requires item == root || DependsOn(g.Edges(), item, root)
      requires found == main + g.Above(seen)
      ensures result == main + g.Above(seen + {m})
      decreases Dependants(g.Edges(), item), 0
    {
      g.OwnerIsNext(m, this, root);
      g.AboveOneMore(main, seen, m);
      assert m.item != root;
      result := m.RefDepend(root, found + {m}, g);
    }

    method RefCount(ghost g: DepGraph) returns (count: nat)
      requires g.Valid() && this in g.container && Acyclic(g.Edges())
      modifies this`referenceCount
      ensures count == referenceCount == |Dependants(g.Edges(), item)|
    {
      var all := RefDepend(item, {}, g);
      g.CountOfNodes(Dependants(g.Edges(), item));
      referenceCount := |all|;
      count := |all|;
    }
  }

  class DepGraph {
    var container: map<DepNode, nat>

    ghost predicate Valid()
      reads this`container, container.Keys`rDep
    {
      && (forall m, n :: m in container && n in container && m.item == n.item ==> m == n)
      && (forall n :: n in container ==> n.rDep <= container.Keys)
    }

    ghost function Items(): set<Target>
      reads this`container
    {
      set n | n in container :: n.item
    }

    /** The dependencies recorded so far: a node is in r_dep of what it depends on. */
    ghost function Edges(): set<Edge>
      reads this`container, container.Keys`rDep
    {
      set n, m | n in container && m in n.rDep :: (m.item, n.item)
    }

    ghost function NodesOf(s: set<Target>): set<DepNode>
      reads this`container
    {
      set n | n in container && n.item in s
    }

    constructor ()
      ensures Valid() && container == map[] && Edges() == {}
    {
      container := map[];
    }

    /** The node of a target, made when there is none yet. */
    method Get(item: Target) returns (node: DepNode)
      requires Valid()
      modifies this
      ensures Valid() && node in container && node.item == item
      ensures item in old(Items()) ==> container == old(container)
      ensures item !in old(Items()) ==> fresh(node) && container.Keys == old(container.Keys) + {node}
      ensures Items() == old(Items()) + {item} && Edges() == old(Edges())
    {
      var rest := container.Keys;
      while rest != {}
        invariant rest <= container.Keys
        invariant forall n :: n in container.Keys - rest ==> n.item != item
        decreases rest
      {
        node :| node in rest;
        if node.item == item {
          return;
        }
        rest := rest - {node};
      }
      node := new DepNode(item);
      container := container[node := 0];
    }

    /** Records that a depends on b. */
    method Link(a: DepNode, b: DepNode)
      requires Valid() && a in container && b in container
      modifies b`rDep
      ensures Valid() && Items() == old(Items())
      ensures Edges() == old(Edges()) + {(a.item, b.item)}
    {
      b.rDep := b.rDep + {a};
      assert forall n :: n in container && n != b ==> n.rDep == old(n.rDep);
      assert forall edge :: edge in Edges() ==> edge in old(Edges()) + {(a.item, b.item)};
      assert forall n, m :: n in container && m in old(n.rDep) ==> m in n.rDep;
    }

    /** Queues one dependency of the target that node p stands for, and links the two nodes. */
    method RecordOne(p: DepNode, d: Target)
      requires Valid() && p in container
      modifies this, container.Keys
      ensures Valid() && fresh(container.Keys - old(container.Keys)) && p in container
      ensures Items() == old(Items()) + {d} && Edges() == old(Edges()) + {(p.item, d)}
    {
      var q := Get(d);
      Link(p, q);
    }

    /** The inner loop of the source: queues and links every dependency of one target. */
    method RecordAll(p: DepNode, ds: seq<Target>, pending: seq<Target>) returns (longer: seq<Target>)
      requires Valid() && p in container
      modifies this, container.Keys
      ensures Valid() && fresh(container.Keys - old(container.Keys))
      ensures longer == pending + ds
      ensures Items() == old(Items()) + Elements(ds)
      ensures Edges() == old(Edges()) + EdgesFrom(p.item, ds)
    {
      longer := pending;
      ghost var items, edges := Items(), Edges();
      for i := 0 to |ds|
        invariant Valid() && p in container && fresh(container.Keys - old(container.Keys))
        invariant longer == pending + ds[..i]
        invariant Items() == items + Elements(ds[..i]) && Edges() == edges + EdgesFrom(p.item, ds[..i])
      {
        OneMore(p.item, ds, i, pending, items, edges);
        longer := longer + [ds[i]];
        RecordOne(p, ds[i]);
      }
      assert ds[..|ds|] == ds;
    }

    /** Everything the source does with a target that it takes from its queue for the first time. */
    method Record(t: Target, ds: seq<Target>, pending: seq<Target>) returns (longer: seq<Target>)
      requires Valid()
      modifies this, container.Keys
      ensures Valid() && fresh(container.Keys - old(container.Keys))
      ensures longer == pending + ds
      ensures Items() == old(Items()) + {t} + Elements(ds)
      ensures Edges() == old(Edges()) + EdgesFrom(t, ds)
    {
      var p := Get(t);
      longer := RecordAll(p, ds, pending);
    }

    ghost predicate Counted(key: Target -> nat)
      reads this, container.Keys
    {
      forall n :: n in container ==> n.referenceCount == key(n.item)
    }

    method CountAll()
      requires Valid() && Acyclic(Edges())
      modifies this`container, container.Keys`referenceCount
      ensures Valid() && container.Keys == old(container.Keys) && Edges() == old(Edges())
      ensures Counted(CountIn(Edges()))
    {
      ghost var e := Edges();
      var rest := container.Keys;
      while rest != {}
        invariant Valid() && container.Keys == old(container.Keys) && rest <= container.Keys
        invariant Edges() == e
        invariant forall n :: n in container.Keys - rest ==> n.referenceCount == CountIn(e)(n.item)
        decreases rest
      {
        var n :| n in rest;
        var count := n.RefCount(this);
        container := container[n := count];
        rest := rest - {n};
      }
    }

    /** Puts a target into a sorted result; a target with an equal count may be passed or not. */
    method SortIn(t: Target, r: seq<Target>, ghost key: Target -> nat) returns (longer: seq<Target>)
      requires Valid() && Counted(key) && t in Items() && (forall x :: x in r ==> x in Items())
      requires Sorted(key, r) && EachOnce(r) && t !in r
      modifies this
      ensures container == old(container)
      ensures Sorted(key, longer) && EachOnce(longer)
      ensures forall x :: x in longer <==> x in r || x == t
    {
      var p := Get(t);
      var i := 0;
      var passing := true;
      while i < |r| && passing
        invariant container == old(container) && i <= |r|
        invariant i > 0 ==> key(r[i - 1]) >= key(t)
        invariant passing || (i < |r| && key(r[i]) <= key(t))
        decreases |r| - i, passing
      {
        assert r[i] in r;
        var q := Get(r[i]);
        var pass: bool := *;
        if q.referenceCount > p.referenceCount || (q.referenceCount == p.referenceCount && pass) {
          i := i + 1;
        } else {
          passing := false;
        }
      }
      longer := r[..i] + [t] + r[i..];
      InsertedInOrder(key, r, i, t);
      InsertedOnce(r, i, t);
    }

    /** The sort over the set of targets, in any order of the set and of ties. */
    method Sort(targets: set<Target>, ghost key: Target -> nat) returns (r: seq<Target>)
      requires Valid() && Counted(key) && targets <= Items()
      modifies this
      ensures container == old(container)
      ensures Sorted(key, r) && EachOnce(r) && forall t :: t in r <==> t in targets
    {
      r := [];
      var rest := targets;
      while rest != {}
        invariant container == old(container) && rest <= targets
        invariant Sorted(key, r) && EachOnce(r)
        invariant forall t :: t in r <==> t in targets - rest
        decreases rest
      {
        var t :| t in rest;
        r := SortIn(t, r, key);
        rest := rest - {t};
      }
    }

    /** The given nodes and everything that depends on them. */
    ghost function Above(s: set<DepNode>): set<DepNode>
      reads this`container, container.Keys`rDep
    {
      set n | n in container && exists m :: m in s && (n == m || DependsOn(Edges(), n.item, m.item))
    }

    lemma OwnerIsNext(m: DepNode, node: DepNode, root: Target)
      requires Valid() && node in container && m in node.rDep && Acyclic(Edges())
      requires node.item == root || DependsOn(Edges(), node.item, root)
      ensures Dependants(Edges(), m.item) < Dependants(Edges(), node.item)
      ensures m.item != root && DependsOn(Edges(), m.item, root)
    {
      assert (m.item, node.item) in Edges();
      CountGrows(Edges(), m.item, node.item);
      DirectDependsOn(Edges(), m.item, node.item);
      if node.item != root {
        Transitive(Edges(), m.item, node.item, root);
      }
    }

    lemma AboveOneMore(main: set<DepNode>, s: set<DepNode>, m: DepNode)
      requires Valid() && m in container
      ensures main + Above(s) + {m} + NodesOf(Dependants(Edges(), m.item)) == main + Above(s + {m})
    {
      forall n | n in container
        ensures n.item in Dependants(Edges(), m.item) <==> DependsOn(Edges(), n.item, m.item)
      {
        DependantsAre(Edges(), n.item, m.item);
      }
      assert Above(s + {m}) == Above(s) + {m} + NodesOf(Dependants(Edges(), m.item));
    }

    lemma AboveOwners(node: DepNode)
      requires Valid() && node in container
      ensures Above(node.rDep) == NodesOf(Dependants(Edges(), node.item))
    {
      forall n | n in container
        ensures n in Above(node.rDep) <==> n.item in Dependants(Edges(), node.item)
      {
        DependantsAre(Edges(), n.item, node.item);
        OwnersReach(n, node);
      }
    }

    lemma OwnersReach(n: DepNode, node: DepNode)
      requires Valid() && node in container && n in container
      ensures DependsOn(Edges(), n.item, node.item) <==>
        exists m :: m in node.rDep && (n == m || DependsOn(Edges(), n.item, m.item))
    {
      var e := Edges();
      if DependsOn(e, n.item, node.item) {
        var d := LastLink(e, n.item, node.item);
        var b, m :| b in container && m in b.rDep && (m.item, b.item) == (d, node.item);
        assert b == node;
      }
      forall m | m in node.rDep && (n == m || DependsOn(e, n.item, m.item))
        ensures DependsOn(e, n.item, node.item)
      {
        assert (m.item, node.item) in e;
        if n == m {
          DirectDependsOn(e, n.item, node.item);
        } else {
          DependsOnExtends(e, n.item, m.item, node.item);
        }
      }
    }

    lemma {:induction false} CountOfNodes(s: set<Target>)
      requires Valid() && s <= Items()
      ensures |NodesOf(s)| == |s|
      decreases s
    {
      if s == {} {
        assert NodesOf(s) == {};
      } else {
        var t :| t in s;
        var n :| n in container && n.item == t;
        CountOfNodes(s - {t});
        assert NodesOf(s) == NodesOf(s - {t}) + {n};
      }
    }
  }

  // ---------------------------------------------------------------------------------------
  // dep_order
  // ---------------------------------------------------------------------------------------

  /** The queue loop between two turns: targets are dealt with, pending ones are still queued. */
  ghost predicate Collecting(deps: Target -> seq<Target>, from: Target, universe: set<Target>,
                             targets: set<Target>, pending: seq<Target>, items: set<Target>)
  {
    && targets <= items && targets <= universe
    && (forall t :: t in pending ==> t in universe)
    && (forall t :: t in targets || t in pending ==> Reachable(deps, from, t))
    && (from in targets || from in pending)
    && (forall a, b :: a in targets && b in deps(a) ==> b in targets || b in pending)
    && (forall t :: t in items ==> t in targets || t in pending)
  }

  lemma Skipped(deps: Target -> seq<Target>, from: Target, universe: set<Target>,
                targets: set<Target>, pending: seq<Target>, items: set<Target>)
    requires Collecting(deps, from, universe, targets, pending, items)
    requires pending != [] && pending[0] in targets
    ensures Collecting(deps, from, universe, targets, pending[1..], items)
  {
    assert pending == [pending[0]] + pending[1..];
  }

  lemma Collected(deps: Target -> seq<Target>, from: Target, universe: set<Target>,
                  targets: set<Target>, pending: seq<Target>, items: set<Target>)
    requires Closed(deps, universe) && Collecting(deps, from, universe, targets, pending, items)
    requires pending != [] && pending[0] !in targets
    ensures var t := pending[0];
      Collecting(deps, from, universe, targets + {t}, pending[1..] + deps(t), items + {t} + Elements(deps(t)))
  {
    var t := pending[0];
    assert pending == [t] + pending[1..];
    forall d | d in deps(t) ensures Reachable(deps, from, d) {
      ReachableExtends(deps, from, t, d);
    }
  }

  lemma ReachedOneMore(deps: Target -> seq<Target>, u: set<Target>, t: Target)
    ensures EdgesOf(deps, u + {t}) == EdgesOf(deps, u) + EdgesFrom(t, deps(t))
  {
  }

  /** A target that has not been dealt with: its dependencies are recorded and queued. */
  method TakeOne(g: DepGraph, ghost from: Target, deps: Target -> seq<Target>, ghost universe: set<Target>,
                 ghost targets: set<Target>, pending: seq<Target>)
    returns (longer: seq<Target>)
    requires g.Valid() && Closed(deps, universe) && pending != [] && pending[0] !in targets
    requires Collecting(deps, from, universe, targets, pending, g.Items()) && g.Edges() == EdgesOf(deps, targets)
    modifies g, g.container.Keys
    ensures g.Valid() && fresh(g.container.Keys - old(g.container.Keys))
    ensures Collecting(deps, from, universe, targets + {pending[0]}, longer, g.Items())
    ensures g.Edges() == EdgesOf(deps, targets + {pending[0]})
  {
    var t := pending[0];
    Collected(deps, from, universe, targets, pending, g.Items());
    ReachedOneMore(deps, targets, t);
    longer := g.Record(t, deps(t), pending[1..]);
  }

  /** The queue loop. It ends because the targets it can reach are finitely many. */
  method Collect(from: Target, deps: Target -> seq<Target>, ghost universe: set<Target>)
    returns (targets: set<Target>, g: DepGraph)
    requires from in universe && Closed(deps, universe)
    ensures fresh(g) && g.Valid() && fresh(g.container.Keys)
    ensures forall t :: t in targets <==> Reachable(deps, from, t)
    ensures g.Items() == targets && g.Edges() == EdgesOf(deps, targets)
  {
    targets := {};
    g := new DepGraph();
    var pending := [from];
    ReachableFromItself(deps, from);
    while pending != []
      invariant fresh(g) && g.Valid() && fresh(g.container.Keys)
      invariant Collecting(deps, from, universe, targets, pending, g.Items())
      invariant g.Edges() == EdgesOf(deps, targets)
      decreases universe - targets, |pending|
    {
      var t := pending[0];
      if t in targets {
        Skipped(deps, from, universe, targets, pending, g.Items());
        pending := pending[1..];
      } else {
        pending := TakeOne(g, from, deps, universe, targets, pending);
        targets := targets + {t};
      }
    }
    AllCollected(deps, from, universe, targets, g.Items());
  }

  lemma AllCollected(deps: Target -> seq<Target>, from: Target, universe: set<Target>,
                     targets: set<Target>, items: set<Target>)
    requires Collecting(deps, from, universe, targets, [], items)
    ensures items == targets && forall t :: t in targets <==> Reachable(deps, from, t)
  {
    ReachedIsAll(deps, from, targets);
  }

  lemma ReachedIsAll(deps: Target -> seq<Target>, from: Target, u: set<Target>)
    requires from in u && Closed(deps, u) && forall t :: t in u ==> Reachable(deps, from, t)
    ensures forall t :: t in u <==> Reachable(deps, from, t)
  {
    forall t | Reachable(deps, from, t) ensures t in u {
      var p :| Walk(deps, p) && p[0] == from && p[|p| - 1] == t;
      ClosedHoldsWalks(deps, u, p, |p| - 1);
    }
  }

  /**
   * For every dependency function without a cycle and with finitely many targets to reach, the
   * result holds each of them once, after all its own dependencies, and ends with the target.
   */
  method DepOrder(from: Target, deps: Target -> seq<Target>, ghost universe: set<Target>)
    returns (r: seq<Target>)
    requires from in universe && Closed(deps, universe) && NoCycleFrom(deps, from)
    ensures EachOnce(r) && forall t :: t in r <==> Reachable(deps, from, t)
    ensures forall i, d :: 0 <= i < |r| && d in deps(r[i]) ==> d in r[..i]
    ensures |r| > 0 && r[|r| - 1] == from
  {
    var targets, g := Collect(from, deps, universe);
    EdgesAreAcyclic(deps, targets, from);
    g.CountAll();
    r := g.Sort(targets, CountIn(g.Edges()));
    assert targets == Elements(r);
    AnySortIsAnOrder(deps, from, r);
  }
}
