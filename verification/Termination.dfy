/** Whether creating an entity ends. Registering child types does not stop a type from being registered below
    itself, directly or through others. */
module Termination {
  import opened Entities
  import opened SceneTree

  datatype Option<+T> = None | Some(value: T)

  // ----- creation, interrupted at a depth

  /** createNetworkedEntity when at most `depth` of its calls may be under way at once: nothing comes of it if
      that is not enough. */
  function Run(t: Types, depth: nat, next: EntityID, info: EntityInfo): Option<(seq<EntityInfo>, EntityID)>
    decreases depth, 1, 0
  {
    if depth == 0 then None
    else if !t.Accepts(info) then Some(([], next))
    else
      match RunChildren(t, depth - 1, ChildrenOf(t.children, info.kind), FirstID(next, info), info.ownerID,
          RootID(next, info))
      case None => None
      case Some((announced, end)) =>
        Some((announced + [info.(ID := RootID(next, info), ownerID := OwnerOf(info.ownerID))], end))
  }

  function RunChildren(t: Types, depth: nat, children: seq<Child>, next: EntityID, ownerID: ClientID, parent: EntityID)
      : Option<(seq<EntityInfo>, EntityID)>
    decreases depth, 2, |children|
  {
    if children == [] then Some(([], next))
    else
      match Run(t, depth, next, ChildInfo(children[0], ownerID, parent))
      case None => None
      case Some((first, mid)) =>
        match RunChildren(t, depth, children[1..], mid, ownerID, parent)
        case None => None
        case Some((rest, end)) => Some((first + rest, end))
  }

  ghost predicate Ends(t: Types, next: EntityID, info: EntityInfo) {
    exists depth :: Run(t, depth, next, info) != None
  }

  /** Under a rank it ends, and what comes of it is Create. */
  lemma {:induction false} RunIsCreate(t: Types, depth: nat, next: EntityID, info: EntityInfo)
    requires t.Valid() && t.Covers(info) && depth > t.Measure(info)
    ensures Run(t, depth, next, info) == Some(Create(t, next, info))
    decreases t.Measure(info), 1, 0
  {
    if t.Accepts(info) {
      assert t.Falls(info.kind);
      RunChildrenIsCreate(t, depth - 1, ChildrenOf(t.children, info.kind), FirstID(next, info), info.ownerID,
                          RootID(next, info), t.rank[info.kind]);
    }
  }

  lemma {:induction false} RunChildrenIsCreate(t: Types, depth: nat, children: seq<Child>, next: EntityID,
      ownerID: ClientID,
      parent: EntityID, bound: nat)
    requires t.Valid() && t.Bounded(children, bound) && depth > bound
    ensures RunChildren(t, depth, children, next, ownerID, parent)
            == Some(CreateChildren(t, children, next, ownerID, parent, bound))
    decreases bound, 2, |children|
  {
    if children == [] {
    } else {
      var info := ChildInfo(children[0], ownerID, parent);
      RunIsCreate(t, depth, next, info);
      RunChildrenIsCreate(t, depth, children[1..], Create(t, next, info).1, ownerID, parent, bound);
    }
  }

  // ----- chains of nested calls

  /** Creating an entity of type a creates, as its i-th child, one of type b. */
  predicate Calls(t: Types, a: Str, b: Str, i: nat) {
    && i < |ChildrenOf(t.children, a)|
    && t.AcceptsChild(ChildrenOf(t.children, a)[i])
    && ChildrenOf(t.children, a)[i].kind == b
  }

  predicate Edge(t: Types, a: Str, b: Str) {
    exists i :: 0 <= i < |ChildrenOf(t.children, a)| && Calls(t, a, b, i)
  }

  predicate Link(t: Types, p: seq<Str>, i: nat)
    requires i < |p| - 1
  {
    Edge(t, p[i], p[i + 1])
  }

  /** Types of calls nested in one another */
  predicate Chain(t: Types, p: seq<Str>) {
    p != [] && forall i :: 0 <= i < |p| - 1 ==> Link(t, p, i)
  }

  /** A chain that comes back to one of its types */
  predicate Loops(t: Types, p: seq<Str>, i: nat) {
    Chain(t, p) && i < |p| - 1 && p[i] == p[|p| - 1]
  }

  ghost predicate ReachesCycle(t: Types, kind: Str) {
    exists p, i: nat :: Loops(t, p, i) && p[0] == kind
  }

  lemma SubChain(t: Types, p: seq<Str>, i: nat, j: nat)
    requires Chain(t, p) && i < j <= |p|
    ensures Chain(t, p[i..j])
  {
    var q := p[i..j];
    forall k | 0 <= k < |q| - 1
      ensures Link(t, q, k)
    {
      assert Link(t, p, i + k);
    }
  }

  lemma JoinChains(t: Types, p: seq<Str>, q: seq<Str>)
    requires Chain(t, p) && Chain(t, q) && p[|p| - 1] == q[0]
    ensures Chain(t, p + q[1..])
  {
    var r := p + q[1..];
    forall k | 0 <= k < |r| - 1
      ensures Link(t, r, k)
    {
      if k < |p| - 1 {
        assert Link(t, p, k);
      } else {
        assert Link(t, q, k - (|p| - 1));
      }
    }
  }

  /** A chain of n nested calls does not fit into fewer than n, wherever among its siblings each call stands. */
  lemma {:induction false} ChainInterrupts(t: Types, depth: nat, next: EntityID, info: EntityInfo, p: seq<Str>)
    requires Chain(t, p) && t.Accepts(info) && info.kind == p[0] && depth < |p|
    ensures Run(t, depth, next, info) == None
    decreases depth, 1, 0
  {
    if depth == 0 {
    } else {
      assert Link(t, p, 0);
      var i :| 0 <= i < |ChildrenOf(t.children, p[0])| && Calls(t, p[0], p[1], i);
      SubChain(t, p, 1, |p|);
      ChildInterrupts(t, depth - 1, ChildrenOf(t.children, p[0]), FirstID(next, info), info.ownerID,
          RootID(next, info), p[1..|p|], i);
    }
  }

  lemma {:induction false} ChildInterrupts(t: Types, depth: nat, children: seq<Child>, next: EntityID,
      ownerID: ClientID,
      parent: EntityID, p: seq<Str>, i: nat)
    requires Chain(t, p) && i < |children| && t.AcceptsChild(children[i]) && children[i].kind == p[0] && depth < |p|
    ensures RunChildren(t, depth, children, next, ownerID, parent) == None
    decreases depth, 2, |children|
  {
    if i == 0 {
      ChainInterrupts(t, depth, next, ChildInfo(children[0], ownerID, parent), p);
    } else {
      var run := Run(t, depth, next, ChildInfo(children[0], ownerID, parent));
      if run != None {
        ChildInterrupts(t, depth, children[1..], run.value.1, ownerID, parent, p, i - 1);
      }
    }
  }

  /** From a type that reaches a cycle there are chains of any length. */
  lemma {:induction false} ChainsOfAnyLength(t: Types, p: seq<Str>, i: nat, n: nat) returns (q: seq<Str>)
    requires Loops(t, p, i)
    ensures Loops(t, q, i) && q[0] == p[0] && |q| >= n
    decreases n
  {
    if n == 0 {
      q := p;
    } else {
      var shorter := ChainsOfAnyLength(t, p, i, n - 1);
      SubChain(t, shorter, i, |shorter|);
      var again := shorter[i..|shorter|];
      JoinChains(t, shorter, again);
      q := shorter + again[1..];
    }
  }

  // ----- without a cycle there is a rank

  /** No chain from one of these types comes back to where it started. */
  ghost predicate AcyclicFrom(t: Types, s: set<Str>) {
    forall p :: !Returns(t, s, p)
  }

  predicate Returns(t: Types, s: set<Str>, p: seq<Str>) {
    Chain(t, p) && |p| >= 2 && p[0] in s && p[0] == p[|p| - 1]
  }

  lemma {:induction false} DistinctBound(p: seq<Str>, s: set<Str>)
    requires (forall i :: 0 <= i < |p| ==> p[i] in s) && (forall i, j :: 0 <= i < j < |p| ==> p[i] != p[j])
    ensures |p| <= |s|
    decreases |p|
  {
    if p == [] {
    } else {
      var n := |p| - 1;
      DistinctBound(p[..n], s - {p[n]});
    }
  }

  predicate HasChildIn(t: Types, kind: Str, s: set<Str>) {
    exists k :: k in s && Edge(t, kind, k)
  }

  /** A set of types in which every type has a child has chains of any length. */
  lemma {:induction false} LongChain(t: Types, s: set<Str>, n: nat) returns (p: seq<Str>)
    requires s != {} && forall k {:trigger HasChildIn(t, k, s)} :: k in s ==> HasChildIn(t, k, s)
    ensures |p| == n + 1 && Chain(t, p) && forall i :: 0 <= i < |p| ==> p[i] in s
    decreases n
  {
    if n == 0 {
      var k :| k in s;
      p := [k];
    } else {
      var q := LongChain(t, s, n - 1);
      var last := q[|q| - 1];
      assert HasChildIn(t, last, s);
      var k :| k in s && Edge(t, last, k);
      p := q + [k];
      forall i | 0 <= i < |p| - 1
        ensures Link(t, p, i)
      {
        if i < |q| - 1 {
          assert Link(t, q, i);
        }
      }
    }
  }

  lemma NoRepeatAt(t: Types, s: set<Str>, p: seq<Str>, i: nat, j: nat)
    requires AcyclicFrom(t, s) && Chain(t, p) && i < j < |p| && p[i] in s
    ensures p[i] != p[j]
  {
    var q := p[i..j + 1];
    SubChain(t, p, i, j + 1);
    assert !Returns(t, s, q);
  }

  lemma SomeLeafExists(t: Types, all: set<Str>, s: set<Str>)
    requires AcyclicFrom(t, all) && s <= all && s != {}
    ensures exists leaf :: leaf in s && !HasChildIn(t, leaf, s)
  {
    if forall k {:trigger HasChildIn(t, k, s)} :: k in s ==> HasChildIn(t, k, s) {
      var p := LongChain(t, s, |s|);
      forall i, j | 0 <= i < j < |p|
        ensures p[i] != p[j]
      {
        NoRepeatAt(t, all, p, i, j);
      }
      DistinctBound(p, s);
      assert false;
    }
  }

  lemma SomeLeaf(t: Types, all: set<Str>, s: set<Str>) returns (leaf: Str)
    requires AcyclicFrom(t, all) && s <= all && s != {}
    ensures leaf in s && forall k :: k in s ==> !Edge(t, leaf, k)
  {
    SomeLeafExists(t, all, s);
    leaf :| leaf in s && !HasChildIn(t, leaf, s);
  }

  /** Ranks for the types of s, leaves first */
  lemma {:induction false} RankUpTo(t: Types, all: set<Str>, s: set<Str>) returns (rank: map<Str, nat>)
    requires AcyclicFrom(t, all) && s <= all
    ensures rank.Keys == s
    ensures forall a, b :: a in s && b in s && Edge(t, a, b) ==> rank[b] < rank[a]
    decreases |s|
  {
    if s == {} {
      rank := map[];
    } else {
      // rank the rest above a leaf: everything else moves up by one
      var leaf := SomeLeaf(t, all, s);
      var below := RankUpTo(t, all, s - {leaf});
      rank := map k | k in s :: if k == leaf then 0 else below[k] + 1;
      forall a, b | a in s && b in s && Edge(t, a, b)
        ensures rank[b] < rank[a]
      {
        assert a != leaf;
      }
    }
  }

  lemma CycleFromChild(t: Types, a: Str, b: Str)
    requires Edge(t, a, b) && ReachesCycle(t, b)
    ensures ReachesCycle(t, a)
  {
    var p, i: nat :| Loops(t, p, i) && p[0] == b;
    assert Link(t, [a, b], 0);
    JoinChains(t, [a, b], p);
    assert [a, b] + p[1..] == [a] + p;
    assert Loops(t, [a] + p, i + 1);
  }

  /** There is a rank for exactly the registered types that reach no cycle. */
  lemma FullRank(t: Types) returns (full: Types)
    ensures full.builders == t.builders && full.children == t.children && full.Valid()
    ensures forall kind :: kind in full.rank <==> kind in t.builders && !ReachesCycle(t, kind)
  {
    ghost var s := set kind | kind in t.builders && !ReachesCycle(t, kind);
    forall p
      ensures !Returns(t, s, p)
    {
      assert Returns(t, s, p) ==> Loops(t, p, 0);
    }
    var rank := RankUpTo(t, s, s);
    full := Types(t.builders, t.children, rank);
    forall kind | kind in s
      ensures full.Falls(kind)
    {
      FallsFrom(t, full, s, kind);
    }
  }

  lemma FallsFrom(t: Types, full: Types, s: set<Str>, kind: Str)
    requires full.builders == t.builders && full.children == t.children && full.rank.Keys == s && kind in s
    requires forall k :: k in s <==> k in t.builders && !ReachesCycle(t, k)
    requires forall a, b :: a in s && b in s && Edge(t, a, b) ==> full.rank[b] < full.rank[a]
    ensures full.Falls(kind)
  {
    var cs := ChildrenOf(t.children, kind);
    forall i | 0 <= i < |cs| && full.AcceptsChild(cs[i])
      ensures cs[i].kind in s && full.rank[cs[i].kind] < full.rank[kind]
    {
      assert Calls(t, kind, cs[i].kind, i);
      if ReachesCycle(t, cs[i].kind) {
        CycleFromChild(t, kind, cs[i].kind);
      }
    }
  }

  // ----- exactly when creation ends

  /** Main theorem: creating an entity ends unless it is created at all and its type reaches, through children that
      are created, a type that is its own descendant. */
  lemma EndsExactly(t: Types, next: EntityID, info: EntityInfo)
    ensures Ends(t, next, info) <==> !(t.Accepts(info) && ReachesCycle(t, info.kind))
  {
    if t.Accepts(info) && ReachesCycle(t, info.kind) {
      forall depth
        ensures Run(t, depth, next, info) == None
      {
        NeverEnds(t, depth, next, info);
      }
    } else {
      var full := FullRank(t);
      var depth := full.Measure(info) + 1;
      RunIsCreate(full, depth, next, info);
      SameRun(t, full, depth, next, info);
    }
  }

  /** The failing half: for every n there is a chain of n calls nested in one another. */
  lemma NeverEnds(t: Types, n: nat, next: EntityID, info: EntityInfo)
    requires t.Accepts(info) && ReachesCycle(t, info.kind)
    ensures exists p :: Chain(t, p) && |p| > n && p[0] == info.kind
    ensures Run(t, n, next, info) == None
  {
    var p, i: nat :| Loops(t, p, i) && p[0] == info.kind;
    var q := ChainsOfAnyLength(t, p, i, n + 1);
    ChainInterrupts(t, n, next, info, q);
  }

  /** Ranks play no part in what is run. */
  lemma {:induction false} SameRun(t: Types, u: Types, depth: nat, next: EntityID, info: EntityInfo)
    requires t.builders == u.builders && t.children == u.children
    ensures Run(t, depth, next, info) == Run(u, depth, next, info)
    decreases depth, 1, 0
  {
    if depth == 0 {
    } else {
      SameRunChildren(t, u, depth - 1, ChildrenOf(t.children, info.kind), FirstID(next, info), info.ownerID,
          RootID(next, info));
    }
  }

  lemma {:induction false} SameRunChildren(t: Types, u: Types, depth: nat, children: seq<Child>, next: EntityID,
      ownerID: ClientID,
      parent: EntityID)
    requires t.builders == u.builders && t.children == u.children
    ensures RunChildren(t, depth, children, next, ownerID, parent)
            == RunChildren(u, depth, children, next, ownerID, parent)
    decreases depth, 2, |children|
  {
    if children == [] {
    } else {
      SameRun(t, u, depth, next, ChildInfo(children[0], ownerID, parent));
      var run := Run(t, depth, next, ChildInfo(children[0], ownerID, parent));
      if run != None {
        SameRunChildren(t, u, depth, children[1..], run.value.1, ownerID, parent);
      }
    }
  }

  /** Nothing is lost by creating under a rank: with the full one, it covers exactly the creations that end. */
  lemma CoveredExactly(t: Types, next: EntityID, info: EntityInfo) returns (full: Types)
    ensures full.builders == t.builders && full.children == t.children && full.Valid()
    ensures full.Covers(info) <==> Ends(t, next, info)
    ensures Ends(t, next, info) ==> exists depth :: Run(t, depth, next, info) == Some(Create(full, next, info))
  {
    full := FullRank(t);
    EndsExactly(t, next, info);
    if full.Covers(info) {
      var depth := full.Measure(info) + 1;
      RunIsCreate(full, depth, next, info);
      SameRun(t, full, depth, next, info);
    }
  }

  lemma LoopHasEdge(t: Types, p: seq<Str>, i: nat)
    ensures Loops(t, p, i) ==> Edge(t, p[i], p[i + 1])
  {
    assert Loops(t, p, i) ==> Link(t, p, i);
  }

  /** A type registered as its own child, under a name or without one: only the first recursion never ends. */
  lemma SelfChild(kind: Str, name: Str, next: EntityID, info: EntityInfo)
    requires info.kind == kind && kind != [] && info.name != []
    ensures Ends(Types({kind}, map[kind := [Child(kind, name)]], map[]), next, info) <==> name == []
  {
    var t := Types({kind}, map[kind := [Child(kind, name)]], map[]);
    EndsExactly(t, next, info);
    if name == [] {
      forall p, i: nat
        ensures !Loops(t, p, i)
      {
        LoopHasEdge(t, p, i);
      }
    } else {
      assert Calls(t, kind, kind, 0);
      assert Link(t, [kind, kind], 0);
      assert Loops(t, [kind, kind], 0);
    }
  }
}
