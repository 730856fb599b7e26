/** Whose entities are: owners, and creations that replace entities that are there. */
module Ownership {
  import opened Entities
  import opened SceneTree
  import opened Scenes
  import opened Replication
  import opened History
  import opened Ordering

  // ----- who owns what is requested

  predicate AllOwned(infos: seq<EntityInfo>, ownerID: ClientID) {
    forall i :: 0 <= i < |infos| ==> infos[i].ownerID == ownerID
  }

  lemma {:induction false} CreateOwned(t: Types, next: EntityID, info: EntityInfo)
    requires t.Valid() && t.Covers(info)
    ensures AllOwned(Create(t, next, info).0, OwnerOf(info.ownerID))
    decreases t.Measure(info), 1, 0
  {
    if t.Accepts(info) {
      assert t.Falls(info.kind);
      CreateChildrenOwned(t, ChildrenOf(t.children, info.kind), FirstID(next, info), info.ownerID, RootID(next, info),
          t.rank[info.kind]);
    }
  }

  lemma {:induction false} CreateChildrenOwned(t: Types, children: seq<Child>, next: EntityID, ownerID: ClientID,
      parent: EntityID, bound: nat)
    requires t.Valid() && t.Bounded(children, bound)
    ensures AllOwned(CreateChildren(t, children, next, ownerID, parent, bound).0, OwnerOf(ownerID))
    decreases bound, 2, |children|
  {
    if children == [] {
    } else {
      var info := ChildInfo(children[0], ownerID, parent);
      var (first, mid) := Create(t, next, info);
      CreateOwned(t, next, info);
      CreateChildrenOwned(t, children[1..], mid, ownerID, parent, bound);
      CreateChildrenStep(t, children, next, ownerID, parent, bound, first, mid);
    }
  }

  /** Whomever a client names as the owner of what it asks for, everything created on its request is its own. */
  lemma RequesterOwns(t: Types, h: Host, info: EntityInfo, c: ClientID, m: Message)
    requires t.Valid() && t.Covers(info) && c >= HOST && m in Grant(t, h, ForCreation(info), c).sent
    ensures m.Creation? && m.info.ownerID == c
  {
    CreateOwned(t, h.nextID, info.(ownerID := c));
  }

  // ----- who owns what is there

  /** Every networked entity has an owner. */
  predicate OwnersNamed(scene: Scene) {
    forall id :: id in scene && id > 0 ==> scene[id].info.ownerID != 0
  }

  /** Only createEntity under a networked ID can leave an entity without one. */
  predicate NamesOwner(step: Step) {
    step.HostLocal? && step.info.ID > 0 ==> step.info.ownerID != 0
  }

  lemma CreatedOwned(t: Types, e: Entry, info: EntityInfo)
    requires t.Valid() && HostInv(e.host) && Creates(t, e, info) && !e.step.HostLocal?
    ensures info.ownerID != 0
  {
    if e.step.HostCreate? {
      CreateOwned(t, e.host.nextID, e.step.info);
    } else if e.step.Ask? && e.step.request.ForCreation? {
      CreateOwned(t, e.host.nextID, e.step.request.info.(ownerID := e.step.c));
    } else if e.step.HostUpdate? {
      OnlyDeletions(e.host, Ascending(e.host.scene.Keys));
    }
  }

  lemma StepOwnersExact(t: Types, h: Host, step: Step)
    requires t.Valid() && HostInv(h) && HostEnabled(t, h, step) && OwnersNamed(h.scene)
    ensures OwnersNamed(HostStep(t, h, step).host.scene) <==> NamesOwner(step)
  {
    var e := Entry(h, step);
    var after := HostStep(t, h, step).host.scene;
    if NamesOwner(step) {
      forall id | id in after && id > 0
        ensures after[id].info.ownerID != 0
      {
        StepExplained(t, e, id);
        if CreatesID(t, e, id) && !step.HostLocal? {
          CreatedOwned(t, e, after[id].info);
        }
      }
    } else {
      assert after[step.info.ID].info == step.info;
    }
  }

  /** So after every run without such a step every networked entity of the host's has an owner. */
  lemma {:induction false} RunKeepsOwners(t: Types, w: World, steps: seq<Step>)
    requires t.Valid() && CanRun(t, w, steps) && HostInv(w.host) && OwnersNamed(w.host.scene)
    requires forall i :: 0 <= i < |steps| ==> NamesOwner(steps[i])
    ensures OwnersNamed(Replication.Exec(t, w, steps).host.scene)
    decreases |steps|
  {
    if steps == [] {
    } else {
      StepOwnersExact(t, w.host, steps[0]);
      StepClient(t, w, steps[0], HOST);
      HostStepKeepsInv(t, w.host, steps[0]);
      RunKeepsOwners(t, Apply(t, w, steps[0]), steps[1..]);
    }
  }

  // ----- creations that replace an entity

  /** An ID of what is announced belongs to an entity that is there already. */
  ghost predicate Replaces(h: Host, infos: seq<EntityInfo>) {
    exists id :: id in h.scene && id in IdsOf(infos)
  }

  /** Among the IDs to be issued is one that is taken. */
  ghost predicate IssuesTaken(t: Types, h: Host, info: EntityInfo)
    requires t.Valid() && t.Covers(info)
  {
    exists id :: id in h.scene && h.nextID <= id < Create(t, h.nextID, info).1
  }

  predicate Chosen(step: Step, id: EntityID) {
    match step
    case HostLocal(info) => info.ID == id && id != 0
    case HostCreate(info) => info.ID == id && id != 0
    case Ask(_, ForCreation(info)) => info.ID == id && id != 0
    case _ => false
  }

  lemma {:induction false} ReplacesExact(t: Types, h: Host, info: EntityInfo)
    requires t.Valid() && t.Accepts(info) && t.Covers(info)
    ensures Replaces(h, Create(t, h.nextID, info).0)
            <==> (info.ID != 0 && info.ID in h.scene) || IssuesTaken(t, h, info)
  {
    var forest, end := CreateShape(t, h.nextID, info);
    var root := info.(ID := RootID(h.nextID, info), ownerID := OwnerOf(info.ownerID));
    forall id
      ensures id in IdsOf(forest + [root]) <==> id == root.ID || FirstID(h.nextID, info) <= id < end
    {
      IdsOfMore(forest, root, id);
    }
  }

  lemma IdsOfMore(infos: seq<EntityInfo>, info: EntityInfo, id: EntityID)
    ensures id in IdsOf(infos + [info]) <==> id in IdsOf(infos) || id == info.ID
  {
    var more := infos + [info];
    if id in IdsOf(infos) {
      var i :| 0 <= i < |infos| && infos[i].ID == id;
      assert more[i].ID == id;
    }
    assert more[|infos|] == info;
  }

  /** The IDs from the next free one on are free, unless somebody has chosen them. */
  ghost predicate TakenWereChosen(p: Past) {
    forall id :: id in p.world.host.scene && id >= p.world.host.nextID
        ==> exists k :: 0 <= k < |p.log| && Chosen(p.log[k].step, id)
  }

  lemma CreatedBelow(t: Types, e: Entry, info: EntityInfo)
    requires t.Valid() && HostInv(e.host) && Creates(t, e, info)
    ensures info.ID < HostStep(t, e.host, e.step).host.nextID || Chosen(e.step, info.ID)
  {
    if e.step.HostCreate? || (e.step.Ask? && e.step.request.ForCreation?) {
      var asked := if e.step.HostCreate? then e.step.info else e.step.request.info.(ownerID := e.step.c);
      AnnouncedBelow(t, e.host.nextID, asked, info);
    } else if e.step.HostUpdate? {
      OnlyDeletions(e.host, Ascending(e.host.scene.Keys));
    }
  }

  lemma AnnouncedBelow(t: Types, next: EntityID, asked: EntityInfo, info: EntityInfo)
    requires t.Valid() && t.Covers(asked) && info in Create(t, next, asked).0
    ensures info.ID < Create(t, next, asked).1 || (info.ID == asked.ID && asked.ID != 0)
  {
    var forest, end := CreateShape(t, next, asked);
    if info in forest {
      var i :| 0 <= i < |forest| && forest[i] == info;
      assert info.ID in IdsOf(forest);
    }
  }

  lemma NextGrows(t: Types, h: Host, step: Step)
    requires t.Valid() && HostEnabled(t, h, step)
    ensures HostStep(t, h, step).host.nextID >= h.nextID
  {
    match step
    case HostCreate(info) => CreateCounts(t, h.nextID, info);
    case Ask(c, ForCreation(info)) => CreateCounts(t, h.nextID, info.(ownerID := c));
    case _ =>
  }

  lemma StepKeepsTaken(t: Types, p: Past, step: Step)
    requires t.Valid() && Enabled(t, p.world, step) && HostInv(p.world.host) && TakenWereChosen(p)
    ensures TakenWereChosen(Advance(t, p, step))
  {
    var e := Entry(p.world.host, step);
    var after := Advance(t, p, step);
    StepClient(t, p.world, step, HOST);
    HostStepKeepsInv(t, p.world.host, step);
    NextGrows(t, p.world.host, step);
    assert after.log[|p.log|] == e;
    forall id | id in after.world.host.scene && id >= after.world.host.nextID
      ensures exists k :: 0 <= k < |after.log| && Chosen(after.log[k].step, id)
    {
      StepExplained(t, e, id);
      if CreatesID(t, e, id) {
        CreatedBelow(t, e, after.world.host.scene[id].info);
        assert Chosen(after.log[|p.log|].step, id);
      } else {
        var k :| 0 <= k < |p.log| && Chosen(p.log[k].step, id);
        assert after.log[k] == p.log[k];
      }
    }
  }

  lemma {:induction false} RunKeepsTaken(t: Types, p: Past, steps: seq<Step>)
    requires t.Valid() && CanRun(t, p.world, steps) && HostInv(p.world.host) && TakenWereChosen(p)
    ensures TakenWereChosen(History.Exec(t, p, steps))
    decreases |steps|
  {
    if steps == [] {
    } else {
      StepKeepsTaken(t, p, steps[0]);
      StepClient(t, p.world, steps[0], HOST);
      HostStepKeepsInv(t, p.world.host, steps[0]);
      RunKeepsTaken(t, Advance(t, p, steps[0]), steps[1..]);
    }
  }

  /** Main theorem: after any run, a creation replaces an entity of the host if and only if the ID chosen for it
      is taken, or one of those now issued is, and then somebody chose that one in an earlier step. */
  lemma ReplacementExact(t: Types, steps: seq<Step>, info: EntityInfo)
    requires t.Valid() && CanRun(t, Init(), steps) && t.Accepts(info) && t.Covers(info)
    ensures var p := History.Exec(t, Start(), steps);
            var h := p.world.host;
            Replaces(h, Create(t, h.nextID, info).0) <==>
            || (info.ID != 0 && info.ID in h.scene)
            || exists k, id :: 0 <= k < |p.log| && Chosen(p.log[k].step, id) && id in h.scene
                && h.nextID <= id < Create(t, h.nextID, info).1
  {
    var p := History.Exec(t, Start(), steps);
    var h := p.world.host;
    RunKeepsTaken(t, Start(), steps);
    ReplacesExact(t, h, info);
    if IssuesTaken(t, h, info) {
      var id :| id in h.scene && h.nextID <= id < Create(t, h.nextID, info).1;
      var k :| 0 <= k < |p.log| && Chosen(p.log[k].step, id);
    }
  }

  /** Whoever chooses the ID of somebody's entity replaces it, and a client becomes the owner of what it has put
      there. */
  lemma RequesterTakesOver(t: Types, h: Host, info: EntityInfo, c: ClientID)
    requires t.Valid() && t.Accepts(info) && t.Covers(info) && HostInv(h) && c >= HOST && info.ID != 0
    ensures var after := Grant(t, h, ForCreation(info), c).host;
            info.ID in after.scene && after.scene[info.ID] == Entity(info.(ownerID := c), false)
  {
    var asked := info.(ownerID := c);
    var forest, end := CreateShape(t, h.nextID, asked);
    RootLast(h.scene, forest, asked);
  }

  // ----- three requests the server does not check

  lemma {:induction false} OneStep(t: Types, p: Past, step: Step)
    requires t.Valid() && Enabled(t, p.world, step)
    ensures CanRun(t, p.world, [step]) && Replication.Exec(t, p.world, [step]) == Apply(t, p.world, step)
    ensures History.Exec(t, p, [step]) == Advance(t, p, step)
  {
    assert [step][1..] == [];
  }

  lemma {:induction false} OrphanAtOnce(w: World, info: EntityInfo)
    requires w == Init() && Plain([1]).Accepts(info) && info.ID == 0 && info.parentID == 7
    ensures var next := Apply(Plain([1]), w, Ask(2, ForCreation(info)));
            Enabled(Plain([1]), next, HostUpdate) && Deletion(1) in Sent(Plain([1]), next, HostUpdate)
  {
    CreatedPlain([1], w.host, info.(ownerID := 2));
    DeletionsBroadcast(Plain([1]), Apply(Plain([1]), w, Ask(2, ForCreation(info))).host, HostUpdate, 1);
  }

  /** A parent that does not exist: the next update deletes the entity, though nobody ever asked for a deletion. */
  lemma {:induction false} UnaskedDeletion() returns (t: Types, steps: seq<Step>)
    ensures steps == [Ask(2, ForCreation(EntityInfo([1], [1], 0, 0, 7)))]
    ensures t.Valid() && CanRun(t, Init(), steps)
    ensures var w := Replication.Exec(t, Init(), steps);
            Enabled(t, w, HostUpdate) && Deletion(1) in Sent(t, w, HostUpdate)
    ensures var log := History.Exec(t, Start(), steps).log; forall k, id :: 0 <= k < |log| ==> !Asks(log[k], id)
  {
    t := Plain([1]);
    var info := EntityInfo([1], [1], 0, 0, 7);
    steps := [Ask(2, ForCreation(info))];
    OneStep(t, Start(), steps[0]);
    OrphanAtOnce(Init(), info);
    assert History.Exec(t, Start(), steps).log == [Entry(Init().host, steps[0])];
  }

  /** A chosen ID below its parent's: the snapshot sends the parent first. */
  lemma ParentSentFirst() returns (t: Types, steps: seq<Step>)
    ensures steps == [HostCreate(EntityInfo([1], [1], 9, 0, 0)), Ask(2, ForCreation(EntityInfo([1], [1], 3, 0, 9)))]
    ensures t.Valid() && CanRun(t, Init(), steps)
    ensures var scene := Replication.Exec(t, Init(), steps).host.scene;
            && 3 in scene && scene[3].info.parentID == 9 && !ParentsOlder(scene)
            && (forall i :: 0 <= i < |SnapshotOf(scene)| ==> SnapshotOf(scene)[i].Snapshot?)
                && !SentChildrenFirst(SnapshotOf(scene))
  {
    t := Plain([1]);
    var parent, child := EntityInfo([1], [1], 9, 0, 0), EntityInfo([1], [1], 3, 0, 9);
    steps := [HostCreate(parent), Ask(2, ForCreation(child))];
    CreatedPlain([1], Init().host, parent);
    var w := Apply(t, Init(), HostCreate(parent));
    CreatedPlain([1], w.host, child.(ownerID := 2));
    TwoSteps(t, Init(), HostCreate(parent), Ask(2, ForCreation(child)));
    Replication.RunKeepsInv(t, Init(), steps);
    var scene := Replication.Exec(t, Init(), steps).host.scene;
    assert 9 in scene && !OlderParent(scene[3].info);
    SnapshotChildrenFirst(scene);
  }

  /** The ID of another's entity: it is replaced, and the requester is its owner. */
  lemma OwnerOusted() returns (t: Types, steps: seq<Step>)
    ensures steps == [HostCreate(EntityInfo([1], [1], 0, 3, 0)), Ask(2, ForCreation(EntityInfo([1], [2], 1, 0, 0)))]
    ensures t.Valid() && CanRun(t, Init(), steps)
    ensures var made := Apply(t, Init(), steps[0]).host.scene; 1 in made && made[1].info.ownerID == 3
    ensures var scene := Replication.Exec(t, Init(), steps).host.scene;
            1 in scene && scene[1].info == EntityInfo([1], [2], 1, 2, 0)
  {
    t := Plain([1]);
    var first, second := EntityInfo([1], [1], 0, 3, 0), EntityInfo([1], [2], 1, 0, 0);
    steps := [HostCreate(first), Ask(2, ForCreation(second))];
    CreatedPlain([1], Init().host, first);
    var w := Apply(t, Init(), HostCreate(first));
    HostStepKeepsInv(t, Init().host, HostCreate(first));
    RequesterTakesOver(t, w.host, second, 2);
    TwoSteps(t, Init(), HostCreate(first), Ask(2, ForCreation(second)));
  }
}
