/** Creating an entity together with the children registered for its type: which entities come of it,
    how they are numbered, and in what order they are announced. */
module SceneTree {
  import opened Entities

  datatype Child = Child(kind: Str, name: Str)
  type ChildTypes = map<Str, seq<Child>>

  function ChildrenOf(g: ChildTypes, kind: Str): seq<Child> {
    if kind in g then g[kind] else []
  }

  /** Something has a name and a type, and the type is registered. */
  predicate Creatable(builders: set<Str>, kind: Str, name: Str) {
    name != [] && kind != [] && kind in builders
  }

  /** The registered types, their children, and a rank that shows the recursion over them ends: for the types
      in it. A child with an empty name or an unregistered type is not created, so it does not matter. */
  datatype Types = Types(builders: set<Str>, children: ChildTypes, ghost rank: map<Str, nat>) {
    predicate Accepts(info: EntityInfo) {
      Creatable(builders, info.kind, info.name)
    }

    predicate AcceptsChild(child: Child) {
      Creatable(builders, child.kind, child.name)
    }

    /** The rank falls from a type to those of its children. */
    ghost predicate Falls(kind: Str)
      requires kind in rank
    {
      Bounded(ChildrenOf(children, kind), rank[kind])
    }

    ghost predicate Bounded(cs: seq<Child>, bound: nat) {
      forall i :: 0 <= i < |cs| && AcceptsChild(cs[i]) ==> cs[i].kind in rank && rank[cs[i].kind] < bound
    }

    ghost predicate Valid() {
      forall kind :: kind in rank ==> Falls(kind)
    }

    /** Creating this entity is known to end. */
    ghost predicate Covers(info: EntityInfo) {
      Accepts(info) ==> info.kind in rank
    }

    /** Decreases with every nested call */
    ghost function Measure(info: EntityInfo): nat {
      if Accepts(info) && info.kind in rank then rank[info.kind] + 1 else 0
    }
  }

  // ----- what the source does

  /** The ID of the entity itself: one chosen by the caller, or else the next free one */
  function RootID(next: EntityID, info: EntityInfo): EntityID {
    if info.ID == 0 then next else info.ID
  }

  /** The next free ID once it has its own */
  function FirstID(next: EntityID, info: EntityInfo): EntityID {
    if info.ID == 0 then next + 1 else next
  }

  /** The entities announced, in order, and the next free ID, when the host creates an entity for this info */
  function Create(t: Types, next: EntityID, info: EntityInfo): (r: (seq<EntityInfo>, EntityID))
    requires t.Valid() && t.Covers(info)
    decreases t.Measure(info), 1, 0
  {
    if !t.Accepts(info) then ([], next)
    else
      var id := RootID(next, info);
      assert t.Falls(info.kind);
      var (announced, end) :=
        CreateChildren(t, ChildrenOf(t.children, info.kind), FirstID(next, info), info.ownerID, id, t.rank[info.kind]);
      (announced + [info.(ID := id, ownerID := OwnerOf(info.ownerID))], end)
  }

  function CreateChildren(t: Types, children: seq<Child>, next: EntityID, ownerID: ClientID, parent: EntityID,
      ghost bound: nat)
      : (r: (seq<EntityInfo>, EntityID))
    requires t.Valid() && t.Bounded(children, bound)
    decreases bound, 2, |children|
  {
    if children == [] then ([], next)
    else
      var (first, mid) := Create(t, next, ChildInfo(children[0], ownerID, parent));
      var (rest, end) := CreateChildren(t, children[1..], mid, ownerID, parent, bound);
      (first + rest, end)
  }

  function ChildInfo(child: Child, ownerID: ClientID, parent: EntityID): EntityInfo {
    EntityInfo(child.kind, child.name, 0, ownerID, parent)
  }

  /** An entity that nobody was named the owner of belongs to the host. */
  function OwnerOf(ownerID: ClientID): ClientID {
    if ownerID == 0 then HOST else ownerID
  }

  // ----- what comes of it, as a tree

  datatype Tree = Node(info: EntityInfo, children: seq<Tree>)

  function Size(tree: Tree): (n: nat)
    ensures n >= 1
  {
    1 + ForestSize(tree.children)
  }

  function ForestSize(trees: seq<Tree>): nat {
    if trees == [] then 0 else Size(trees[0]) + ForestSize(trees[1..])
  }

  function PreOrder(tree: Tree): (r: seq<EntityInfo>)
    ensures |r| == Size(tree)
  {
    [tree.info] + ForestPreOrder(tree.children)
  }

  function ForestPreOrder(trees: seq<Tree>): (r: seq<EntityInfo>)
    ensures |r| == ForestSize(trees)
  {
    if trees == [] then [] else PreOrder(trees[0]) + ForestPreOrder(trees[1..])
  }

  function PostOrder(tree: Tree): (r: seq<EntityInfo>)
    ensures |r| == Size(tree)
  {
    ForestPostOrder(tree.children) + [tree.info]
  }

  function ForestPostOrder(trees: seq<Tree>): (r: seq<EntityInfo>)
    ensures |r| == ForestSize(trees)
  {
    if trees == [] then [] else PostOrder(trees[0]) + ForestPostOrder(trees[1..])
  }

  /** The tree of types: one node for the type, and below it those of its children, in order; children with
      an empty name, or of an unregistered type, are left out. */
  ghost predicate Unfolds(t: Types, tree: Tree)
    decreases tree, 1
  {
    t.Accepts(tree.info) && UnfoldsAll(t, ChildrenOf(t.children, tree.info.kind), tree.children)
  }

  ghost predicate UnfoldsAll(t: Types, children: seq<Child>, trees: seq<Tree>)
    decreases trees, 0, |children|
  {
    if children == [] then trees == []
    else if !t.AcceptsChild(children[0]) then UnfoldsAll(t, children[1..], trees)
    else
      && trees != []
      && trees[0].info.kind == children[0].kind
      && trees[0].info.name == children[0].name
      && Unfolds(t, trees[0])
      && UnfoldsAll(t, children[1..], trees[1..])
  }

  /** Below the root: every node has its parent's ID as its parent, and all have the same owner; and the IDs of
      every subtree, taken in pre-order, count up from that of its root. */
  predicate Numbered(tree: Tree, ownerID: ClientID) {
    tree.info.ownerID == ownerID && ForestNumbered(tree.children, tree.info.ID + 1, tree.info.ID, ownerID)
  }

  predicate ForestNumbered(trees: seq<Tree>, first: EntityID, parent: EntityID, ownerID: ClientID) {
    trees == [] ||
    (&& trees[0].info.ID == first
     && trees[0].info.parentID == parent
     && Numbered(trees[0], ownerID)
     && ForestNumbered(trees[1..], first + Size(trees[0]), parent, ownerID))
  }

  // ----- the two agree

  /** Main theorem: the host builds the whole tree of the type and announces it in post-order. The root has the
      ID chosen for it, if any; all other nodes, and the root too if not, are numbered in pre-order from the next
      free ID, which uses up exactly as many IDs. */
  lemma {:induction false} CreateBuilds(t: Types, next: EntityID, info: EntityInfo) returns (tree: Tree)
    requires t.Valid() && t.Accepts(info) && t.Covers(info)
    ensures Unfolds(t, tree)
    ensures tree.info == info.(ID := RootID(next, info), ownerID := OwnerOf(info.ownerID))
    ensures ForestNumbered(tree.children, FirstID(next, info), tree.info.ID, tree.info.ownerID)
    ensures info.ID == 0 ==> Numbered(tree, OwnerOf(info.ownerID)) && Size(tree) == 1 + ForestSize(tree.children)
    ensures Create(t, next, info) == (PostOrder(tree), FirstID(next, info) + ForestSize(tree.children))
    decreases t.Measure(info), 1, 0
  {
    assert t.Falls(info.kind);
    var kids := ChildrenOf(t.children, info.kind);
    var trees := ChildrenBuild(t, kids, FirstID(next, info), info.ownerID, RootID(next, info), t.rank[info.kind]);
    tree := Node(info.(ID := RootID(next, info), ownerID := OwnerOf(info.ownerID)), trees);
  }

  lemma {:induction false} ChildrenBuild(t: Types, children: seq<Child>, next: EntityID, ownerID: ClientID,
      parent: EntityID, bound: nat)
      returns (trees: seq<Tree>)
    requires t.Valid() && t.Bounded(children, bound)
    ensures Built(t, children, next, ownerID, parent, bound, trees)
    decreases bound, 2, |children|
  {
    if children == [] {
      trees := [];
    } else {
      var info := ChildInfo(children[0], ownerID, parent);
      if t.Accepts(info) {
        var head := CreateBuilds(t, next, info);
        var tail := ChildrenBuild(t, children[1..], next + Size(head), ownerID, parent, bound);
        BuiltCons(t, children, next, ownerID, parent, bound, head, tail);
        trees := [head] + tail;
      } else {
        trees := ChildrenBuild(t, children[1..], next, ownerID, parent, bound);
        CreateChildrenStep(t, children, next, ownerID, parent, bound, [], next);
        assert [] + ForestPostOrder(trees) == ForestPostOrder(trees);
      }
    }
  }

  /** The trees are what is created for these children. */
  ghost predicate Built(t: Types, children: seq<Child>, next: EntityID, ownerID: ClientID, parent: EntityID,
      bound: nat, trees: seq<Tree>)
    requires t.Valid() && t.Bounded(children, bound)
  {
    && UnfoldsAll(t, children, trees)
    && ForestNumbered(trees, next, parent, OwnerOf(ownerID))
    && CreateChildren(t, children, next, ownerID, parent, bound) == (ForestPostOrder(trees), next + ForestSize(trees))
  }

  lemma {:induction false} BuiltCons(t: Types, children: seq<Child>, next: EntityID, ownerID: ClientID,
      parent: EntityID, bound: nat, head: Tree, tail: seq<Tree>)
    requires t.Valid() && t.Bounded(children, bound) && children != [] && t.AcceptsChild(children[0])
    requires var info := ChildInfo(children[0], ownerID, parent);
             && head.info == info.(ID := next, ownerID := OwnerOf(ownerID))
             && Unfolds(t, head) && Numbered(head, OwnerOf(ownerID))
             && Create(t, next, info) == (PostOrder(head), next + Size(head))
    requires Built(t, children[1..], next + Size(head), ownerID, parent, bound, tail)
    ensures Built(t, children, next, ownerID, parent, bound, [head] + tail)
  {
    var mid := next + Size(head);
    ForestCons(head, tail, next, parent, OwnerOf(ownerID));
    UnfoldsCons(t, children, head, tail);
    CreateChildrenStep(t, children, next, ownerID, parent, bound, PostOrder(head), mid);
  }

  lemma {:induction false} UnfoldsCons(t: Types, children: seq<Child>, head: Tree, tail: seq<Tree>)
    requires children != [] && t.AcceptsChild(children[0])
    requires head.info.kind == children[0].kind && head.info.name == children[0].name
    requires Unfolds(t, head) && UnfoldsAll(t, children[1..], tail)
    ensures UnfoldsAll(t, children, [head] + tail)
  {
    assert ([head] + tail)[1..] == tail;
  }

  lemma {:induction false} CreateChildrenStep(t: Types, children: seq<Child>, next: EntityID, ownerID: ClientID,
      parent: EntityID, bound: nat,
      first: seq<EntityInfo>, mid: EntityID)
    requires t.Valid() && t.Bounded(children, bound)
    requires children != [] && Create(t, next, ChildInfo(children[0], ownerID, parent)) == (first, mid)
    ensures var rest := CreateChildren(t, children[1..], mid, ownerID, parent, bound);
            CreateChildren(t, children, next, ownerID, parent, bound) == (first + rest.0, rest.1)
  {
  }

  lemma {:induction false} ForestCons(head: Tree, tail: seq<Tree>, first: EntityID, parent: EntityID, ownerID: ClientID)
    requires head.info.ID == first && head.info.parentID == parent && Numbered(head, ownerID)
    requires ForestNumbered(tail, first + Size(head), parent, ownerID)
    ensures ForestNumbered([head] + tail, first, parent, ownerID)
    ensures ForestPostOrder([head] + tail) == PostOrder(head) + ForestPostOrder(tail)
    ensures ForestSize([head] + tail) == Size(head) + ForestSize(tail)
  {
    assert ([head] + tail)[1..] == tail;
  }

  /** A numbered tree, read in pre-order, has consecutive IDs; so has every subtree of it. */
  lemma {:induction false} PreOrderCounts(tree: Tree, ownerID: ClientID, k: nat)
    requires Numbered(tree, ownerID) && k < Size(tree)
    ensures PreOrder(tree)[k].ID == tree.info.ID + k && PreOrder(tree)[k].ownerID == ownerID
    decreases tree, 1
  {
    if k > 0 {
      ForestPreOrderCounts(tree.children, tree.info.ID + 1, tree.info.ID, ownerID, k - 1);
    }
  }

  lemma {:induction false} ForestPreOrderCounts(trees: seq<Tree>, first: EntityID, parent: EntityID,
      ownerID: ClientID, k: nat)
    requires ForestNumbered(trees, first, parent, ownerID) && k < ForestSize(trees)
    ensures ForestPreOrder(trees)[k].ID == first + k && ForestPreOrder(trees)[k].ownerID == ownerID
    decreases trees, 0
  {
    var n := Size(trees[0]);
    if k < n {
      PreOrderCounts(trees[0], ownerID, k);
    } else {
      ForestPreOrderCounts(trees[1..], first + n, parent, ownerID, k - n);
    }
  }

  /** Both orders list every node once. */
  lemma {:induction false} OrdersPermute(tree: Tree)
    ensures multiset(PreOrder(tree)) == multiset(PostOrder(tree))
    decreases tree, 1
  {
    ForestOrdersPermute(tree.children);
  }

  lemma {:induction false} ForestOrdersPermute(trees: seq<Tree>)
    ensures multiset(ForestPreOrder(trees)) == multiset(ForestPostOrder(trees))
    decreases trees, 0
  {
    if trees == [] {
    } else {
      OrdersPermute(trees[0]);
      ForestOrdersPermute(trees[1..]);
    }
  }

  // ----- the announcement as the peers see it

  /** Nobody is announced before one of its children. */
  predicate ChildrenFirst(infos: seq<EntityInfo>) {
    forall i, j :: 0 <= i <= j < |infos| ==> infos[j].parentID != infos[i].ID
  }

  predicate IdsWithin(infos: seq<EntityInfo>, lo: EntityID, hi: EntityID) {
    forall i :: 0 <= i < |infos| ==> lo <= infos[i].ID < hi
  }

  /** Facts about an announcement of IDs lo to hi - 1: each of them once, parents inside it below their children
      and announced after them, any other parent being `above`. */
  ghost predicate Announces(infos: seq<EntityInfo>, lo: EntityID, hi: EntityID, above: EntityID, ownerID: ClientID) {
    && |infos| == hi - lo
    && IdsWithin(infos, lo, hi)
    && (forall i, j :: 0 <= i < j < |infos| ==> infos[i].ID != infos[j].ID)
    && (forall i :: 0 <= i < |infos| ==> infos[i].ownerID == ownerID)
    && (forall i :: 0 <= i < |infos| ==> infos[i].parentID == above || lo <= infos[i].parentID < infos[i].ID)
    && (above < lo || hi <= above ==> ChildrenFirst(infos))
  }

  lemma {:induction false} TreeAnnounces(tree: Tree, ownerID: ClientID)
    requires Numbered(tree, ownerID)
    ensures Announces(PostOrder(tree), tree.info.ID, tree.info.ID + Size(tree), tree.info.parentID, ownerID)
    decreases tree, 1
  {
    var id := tree.info.ID;
    ForestAnnounces(tree.children, id + 1, id, ownerID);
  }

  lemma {:induction false} ForestAnnounces(trees: seq<Tree>, first: EntityID, parent: EntityID, ownerID: ClientID)
    requires ForestNumbered(trees, first, parent, ownerID)
    ensures Announces(ForestPostOrder(trees), first, first + ForestSize(trees), parent, ownerID)
    decreases trees, 0
  {
    if trees == [] {
    } else {
      var mid := first + Size(trees[0]);
      TreeAnnounces(trees[0], ownerID);
      ForestAnnounces(trees[1..], mid, parent, ownerID);
      AnnouncementsJoin(PostOrder(trees[0]), ForestPostOrder(trees[1..]), first, mid, mid + ForestSize(trees[1..]),
          parent, ownerID);
    }
  }

  lemma AnnouncementsJoin(a: seq<EntityInfo>, b: seq<EntityInfo>, lo: EntityID, mid: EntityID, hi: EntityID,
      above: EntityID, ownerID: ClientID)
    requires Announces(a, lo, mid, above, ownerID) && Announces(b, mid, hi, above, ownerID)
    ensures Announces(a + b, lo, hi, above, ownerID)
  {
  }

}
