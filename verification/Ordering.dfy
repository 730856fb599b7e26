/** In what order entities are created and sent, when hosts and clients may choose IDs and parents as they like. */
module Ordering {
  import opened Entities
  import opened SceneTree
  import opened Scenes
  import opened Replication
  import opened History

  // ----- what is announced for a creation

  /** The trees of its children, numbered from the next free ID, and then the entity itself */
  ghost predicate Announced(forest: seq<EntityInfo>, root: EntityInfo, first: EntityID, end: EntityID) {
    && first <= end
    && (forall id :: id in IdsOf(forest) <==> first <= id < end)
    && (forall i :: 0 <= i < |forest| ==> forest[i].parentID == root.ID || first <= forest[i].parentID < forest[i].ID)
    && (root.ID < first || end <= root.ID ==> ChildrenFirst(forest))
    && (forest != [] ==> forest[|forest| - 1].parentID == root.ID)
  }

  predicate HasChild(t: Types, kind: Str) {
    exists i :: 0 <= i < |ChildrenOf(t.children, kind)| && t.AcceptsChild(ChildrenOf(t.children, kind)[i])
  }

  lemma {:induction false} CreateShape(t: Types, next: EntityID, info: EntityInfo)
      returns (forest: seq<EntityInfo>, end: EntityID)
    requires t.Valid() && t.Accepts(info) && t.Covers(info)
    ensures var root := info.(ID := RootID(next, info), ownerID := OwnerOf(info.ownerID));
            && Create(t, next, info) == (forest + [root], end)
            && Announced(forest, root, FirstID(next, info), end)
    ensures HasChild(t, info.kind) <==> forest != []
  {
    var tree := CreateBuilds(t, next, info);
    forest := ForestPostOrder(tree.children);
    end := FirstID(next, info) + ForestSize(tree.children);
    ForestAnnounced(tree.children, FirstID(next, info), tree.info);
    ForestEmpty(t, ChildrenOf(t.children, info.kind), tree.children);
  }

  lemma {:induction false} ForestAnnounced(trees: seq<Tree>, first: EntityID, root: EntityInfo)
    requires ForestNumbered(trees, first, root.ID, root.ownerID)
    ensures Announced(ForestPostOrder(trees), root, first, first + ForestSize(trees))
  {
    var forest := ForestPostOrder(trees);
    ForestAnnounces(trees, first, root.ID, root.ownerID);
    ForestLast(trees, first, root.ID, root.ownerID);
    forall id
      ensures id in IdsOf(forest) <==> first <= id < first + ForestSize(trees)
    {
      if first <= id < first + ForestSize(trees) {
        EveryIdAnnounced(trees, first, root.ID, root.ownerID, id);
      }
    }
  }

  lemma EveryIdAnnounced(trees: seq<Tree>, first: EntityID, parent: EntityID, ownerID: ClientID, id: EntityID)
    requires ForestNumbered(trees, first, parent, ownerID) && first <= id < first + ForestSize(trees)
    ensures id in IdsOf(ForestPostOrder(trees))
  {
    var k := id - first;
    ForestPreOrderCounts(trees, first, parent, ownerID, k);
    ForestOrdersPermute(trees);
    var info := ForestPreOrder(trees)[k];
    assert info in multiset(ForestPreOrder(trees));
    assert info in ForestPostOrder(trees);
  }

  lemma {:induction false} ForestLast(trees: seq<Tree>, first: EntityID, parent: EntityID, ownerID: ClientID)
    requires ForestNumbered(trees, first, parent, ownerID)
    ensures var forest := ForestPostOrder(trees);
            trees != [] ==> forest != [] && forest[|forest| - 1].parentID == parent
  {
    if trees == [] {
    } else {
      ForestLast(trees[1..], first + Size(trees[0]), parent, ownerID);
    }
  }

  lemma {:induction false} ForestEmpty(t: Types, children: seq<Child>, trees: seq<Tree>)
    requires UnfoldsAll(t, children, trees)
    ensures (exists i :: 0 <= i < |children| && t.AcceptsChild(children[i])) <==> ForestPostOrder(trees) != []
    decreases |children|
  {
    if children == [] {
    } else if t.AcceptsChild(children[0]) {
      assert |PostOrder(trees[0])| >= 1;
    } else {
      ForestEmpty(t, children[1..], trees);
      if i :| 0 <= i < |children| && t.AcceptsChild(children[i]) {
        assert children[1..][i - 1] == children[i];
      }
    }
  }

  // ----- creations as they happen

  /** Main theorem: a creation announces every entity before its parent if and only if its own ID is none of
      those issued for its children, and it does not name as its parent itself or one of them. */
  lemma CreationChildrenFirst(t: Types, next: EntityID, info: EntityInfo)
    requires t.Valid() && t.Accepts(info) && t.Covers(info)
    ensures var id, first := RootID(next, info), FirstID(next, info);
            var (infos, end) := Create(t, next, info);
            ChildrenFirst(infos) <==> !(first <= id < end) && info.parentID != id && !(first <= info.parentID < end)
  {
    var id, first := RootID(next, info), FirstID(next, info);
    var forest, end := CreateShape(t, next, info);
    var root := info.(ID := id, ownerID := OwnerOf(info.ownerID));
    var infos := forest + [root];
    var n := |forest|;
    if first <= id < end {
      assert id in IdsOf(forest);
      var i :| 0 <= i < n && forest[i].ID == id;
      assert infos[n - 1].parentID == infos[i].ID;
    } else if info.parentID == id {
      assert infos[n].parentID == infos[n].ID;
    } else if first <= info.parentID < end {
      assert info.parentID in IdsOf(forest);
      var i :| 0 <= i < n && forest[i].ID == info.parentID;
      assert infos[n].parentID == infos[i].ID;
    } else {
      forall i, j | 0 <= i <= j < |infos|
        ensures infos[j].parentID != infos[i].ID
      {
        if j == n && i < n {
          assert forest[i].ID in IdsOf(forest);
        }
      }
    }
  }

  // ----- parents with smaller IDs

  predicate OlderParent(info: EntityInfo) {
    info.ID > 0 ==> info.parentID == 0 || info.parentID < info.ID
  }

  /** Every networked entity has a larger ID than its parent, if it has one. */
  predicate ParentsOlder(scene: Scene) {
    forall id :: id in scene ==> OlderParent(scene[id].info)
  }

  /** The entity's ID is above its parent's; and if it is chosen, and children follow, it is not above the next
      free one. */
  predicate KeepsOrder(t: Types, next: EntityID, info: EntityInfo) {
    t.Accepts(info) ==>
      && OlderParent(info.(ID := RootID(next, info)))
      && (info.ID != 0 && HasChild(t, info.kind) ==> info.ID <= next)
  }

  /** Main theorem: a creation keeps parents older if and only if it meets that condition. */
  lemma CreationOrderExact(t: Types, h: Host, info: EntityInfo)
    requires t.Valid() && t.Covers(info) && HostInv(h) && ParentsOlder(h.scene)
    ensures ParentsOlder(CreateNetworked(t, h, info).host.scene) <==> KeepsOrder(t, h.nextID, info)
  {
    if t.Accepts(info) {
      var next := h.nextID;
      var forest, end := CreateShape(t, next, info);
      var root := info.(ID := RootID(next, info), ownerID := OwnerOf(info.ownerID));
      BatchEnters(h.scene, forest);
      RootLast(h.scene, forest, root);
      FamilyOrder(h.scene, forest, root, FirstID(next, info), end, HandleAll(h.scene, Creations(forest)));
    } else {
      assert HandleAll(h.scene, Creations([])) == h.scene;
    }
  }

  lemma FamilyOrder(scene: Scene, forest: seq<EntityInfo>, root: EntityInfo, first: EntityID, end: EntityID,
      middle: Scene)
    requires ParentsOlder(scene) && first > 0 && Announced(forest, root, first, end) && Entered(scene, forest, middle)
    ensures ParentsOlder(middle[root.ID := Entity(root, false)])
            <==> OlderParent(root) && (forest != [] ==> root.ID <= first)
  {
    var after := middle[root.ID := Entity(root, false)];
    assert OlderParent(after[root.ID].info) <==> OlderParent(root);
    if forest != [] {
      assert forest[0].ID in IdsOf(forest);
      assert EnteredAt(scene, forest, middle, first);
    }
    if OlderParent(root) && (forest != [] ==> root.ID <= first) {
      forall id | id in after
        ensures OlderParent(after[id].info)
      {
        assert EnteredAt(scene, forest, middle, id);
      }
    } else if OlderParent(root) {
      assert after[first] == middle[first] && middle[first].info.parentID == root.ID;
      assert !OlderParent(after[first].info);
    }
  }

  lemma RootLast(scene: Scene, forest: seq<EntityInfo>, root: EntityInfo)
    ensures HandleAll(scene, Creations(forest + [root]))
            == HandleAll(scene, Creations(forest))[root.ID := Entity(root, false)]
  {
    AnnouncedJoins(scene, [], true, forest, [root]);
    assert Creations([root]) == [Creation(root)];
    HandleOne(HandleAll(scene, Creations(forest)), Creation(root));
  }

  /** For steps: only creations can put a parent above its child. */
  predicate StepKeepsOrder(t: Types, h: Host, step: Step) {
    match step
    case HostLocal(info) => OlderParent(LocalInfo(h, info))
    case HostCreate(info) => KeepsOrder(t, h.nextID, info)
    case Ask(c, ForCreation(info)) => KeepsOrder(t, h.nextID, info)
    case _ => true
  }

  lemma StepOrderExact(t: Types, h: Host, step: Step)
    requires t.Valid() && HostInv(h) && HostEnabled(t, h, step) && ParentsOlder(h.scene)
    ensures ParentsOlder(HostStep(t, h, step).host.scene) <==> StepKeepsOrder(t, h, step)
  {
    match step
    case HostLocal(info) =>
      var after := HostStep(t, h, step).host.scene;
      assert after == h.scene[LocalInfo(h, info).ID := Entity(LocalInfo(h, info), false)];
      if StepKeepsOrder(t, h, step) {
      } else {
        assert after[LocalInfo(h, info).ID].info == LocalInfo(h, info);
      }
    case HostCreate(info) => CreationOrderExact(t, h, info);
    case HostDelete(id) => DeleteMarks(h, id);
    case Ask(c, ForCreation(info)) => CreationOrderExact(t, h, info.(ownerID := c));
    case Ask(c, ForDeletion(id)) => HandleOne(h.scene, Deletion(id));
    case _ =>
  }

  ghost predicate OrderedRun(t: Types, w: World, steps: seq<Step>)
    requires t.Valid() && CanRun(t, w, steps)
    decreases |steps|
  {
    steps == [] || (StepKeepsOrder(t, w.host, steps[0]) && OrderedRun(t, Apply(t, w, steps[0]), steps[1..]))
  }

  lemma {:induction false} RunKeepsOrder(t: Types, w: World, steps: seq<Step>)
    requires t.Valid() && CanRun(t, w, steps) && OrderedRun(t, w, steps) && HostInv(w.host)
             && ParentsOlder(w.host.scene)
    ensures ParentsOlder(Replication.Exec(t, w, steps).host.scene)
    decreases |steps|
  {
    if steps == [] {
    } else {
      StepOrderExact(t, w.host, steps[0]);
      StepClient(t, w, steps[0], HOST);
      HostStepKeepsInv(t, w.host, steps[0]);
      RunKeepsOrder(t, Apply(t, w, steps[0]), steps[1..]);
    }
  }

  // ----- snapshots

  /** No networked entity is sent after its parent, or is its own. */
  predicate SentChildrenFirst(ms: seq<Message>)
    requires forall i :: 0 <= i < |ms| ==> ms[i].Snapshot?
  {
    forall i, j :: 0 <= i <= j < |ms| && ms[j].info.ID > 0 ==> ms[j].info.parentID != ms[i].info.ID
  }

  predicate ParentsBelow(scene: Scene) {
    forall id :: id in scene && id > 0 && scene[id].info.parentID in scene ==> scene[id].info.parentID < id
  }

  /** Main theorem: a snapshot sends networked entities before their parents if and only if those parents that
      are there have smaller IDs. */
  lemma SnapshotChildrenFirst(scene: Scene)
    requires Keyed(scene)
    ensures forall i :: 0 <= i < |SnapshotOf(scene)| ==> SnapshotOf(scene)[i].Snapshot?
    ensures SentChildrenFirst(SnapshotOf(scene)) <==> ParentsBelow(scene)
  {
    var ids := KeysInOrder(scene);
    assert forall i, j :: 0 <= i < j < |ids| ==> ids[i] < ids[j];
    AllSnapshotsOrder(scene, ids);
  }

  lemma AllSnapshotsOrder(scene: Scene, ids: seq<EntityID>)
    requires Keyed(scene) && Lists(ids, scene) && forall i, j :: 0 <= i < j < |ids| ==> ids[i] < ids[j]
    ensures SentChildrenFirst(Snapshots(scene, ids)) <==> ParentsBelow(scene)
  {
    if SentChildrenFirst(Snapshots(scene, ids)) {
      forall id | id in scene && id > 0 && scene[id].info.parentID in scene
        ensures scene[id].info.parentID < id
      {
        SentThenBelow(scene, ids, id);
      }
    }
    if ParentsBelow(scene) {
      BelowThenSent(scene, ids);
    }
  }

  lemma SnapshotAt(scene: Scene, ids: seq<EntityID>, k: nat) returns (m: Message)
    requires Keyed(scene) && Lists(ids, scene) && k < |ids|
    ensures m == Snapshots(scene, ids)[|ids| - 1 - k] && m.Snapshot? && m.info == scene[ids[k]].info
            && m.info.ID == ids[k]
  {
    m := Snapshots(scene, ids)[|ids| - 1 - k];
    assert ids[k] in scene;
  }

  lemma SentThenBelow(scene: Scene, ids: seq<EntityID>, id: EntityID)
    requires Keyed(scene) && Lists(ids, scene) && forall i, j :: 0 <= i < j < |ids| ==> ids[i] < ids[j]
    requires SentChildrenFirst(Snapshots(scene, ids)) && id in scene && id > 0 && scene[id].info.parentID in scene
    ensures scene[id].info.parentID < id
  {
    var parent := scene[id].info.parentID;
    var a: nat :| a < |ids| && ids[a] == id;
    var b: nat :| b < |ids| && ids[b] == parent;
    var child := SnapshotAt(scene, ids, a);
    var above := SnapshotAt(scene, ids, b);
  }

  lemma BelowThenSent(scene: Scene, ids: seq<EntityID>)
    requires Keyed(scene) && Lists(ids, scene) && forall i, j :: 0 <= i < j < |ids| ==> ids[i] < ids[j]
    requires ParentsBelow(scene)
    ensures SentChildrenFirst(Snapshots(scene, ids))
  {
    var ms := Snapshots(scene, ids);
    var n := |ids| - 1;
    forall i, j | 0 <= i <= j < |ms| && ms[j].info.ID > 0
      ensures ms[j].info.parentID != ms[i].info.ID
    {
      var above := SnapshotAt(scene, ids, n - i);
      var child := SnapshotAt(scene, ids, n - j);
      assert ids[n - j] in scene && ids[n - i] in scene;
    }
  }

  /** So does it after every run whose creations keep the order. */
  lemma OrderedSnapshots(t: Types, steps: seq<Step>)
    requires t.Valid() && CanRun(t, Init(), steps) && OrderedRun(t, Init(), steps)
    ensures var scene := Replication.Exec(t, Init(), steps).host.scene;
            (forall i :: 0 <= i < |SnapshotOf(scene)| ==> SnapshotOf(scene)[i].Snapshot?)
                && SentChildrenFirst(SnapshotOf(scene))
  {
    RunKeepsSound(t, Init(), steps);
    RunKeepsOrder(t, Init(), steps);
    var scene := Replication.Exec(t, Init(), steps).host.scene;
    SnapshotChildrenFirst(scene);
    forall id | id in scene && id > 0 && scene[id].info.parentID in scene
      ensures scene[id].info.parentID < id
    {
      assert OlderParent(scene[id].info);
    }
  }
}
