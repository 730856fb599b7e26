/** What the past of a run says about the host's scene: where every entity comes from, and why one was lost. All
    runs of host and clients count, whatever IDs and parents their requests name. */
module History {
  import opened Entities
  import opened SceneTree
  import opened Scenes
  import opened Replication
  import OrphanCascade

  /** A step, and the host it found */
  datatype Entry = Entry(host: Host, step: Step)

  /** A world and how it came about */
  datatype Past = Past(world: World, log: seq<Entry>)

  function Start(): Past {
    Past(Init(), [])
  }

  ghost function Advance(t: Types, p: Past, step: Step): Past
    requires t.Valid() && Enabled(t, p.world, step)
  {
    Past(Apply(t, p.world, step), p.log + [Entry(p.world.host, step)])
  }

  ghost function Exec(t: Types, p: Past, steps: seq<Step>): (after: Past)
    requires t.Valid() && CanRun(t, p.world, steps)
    ensures after.world == Replication.Exec(t, p.world, steps)
    decreases |steps|
  {
    if steps == [] then p else Exec(t, Advance(t, p, steps[0]), steps[1..])
  }

  // ----- what a step creates and who asks for deletions

  function LocalInfo(h: Host, info: EntityInfo): EntityInfo {
    if info.ID == 0 then info.(ID := h.localID) else info
  }

  ghost predicate Creates(t: Types, e: Entry, info: EntityInfo)
    requires t.Valid()
  {
    HostEnabled(t, e.host, e.step)
    && if e.step.HostLocal? then info == LocalInfo(e.host, e.step.info)
        else Creation(info) in HostStep(t, e.host, e.step).sent
  }

  ghost predicate CreatesID(t: Types, e: Entry, id: EntityID)
    requires t.Valid()
  {
    exists info :: Creates(t, e, info) && info.ID == id
  }

  /** The entity's deletion is called for on the host, or granted to its owner, or the entity marks itself. */
  predicate Asks(e: Entry, id: EntityID) {
    match e.step
    case HostDelete(i) => i == id
    case HostMark(i) => i == id
    case Ask(c, ForDeletion(i)) => i == id && id in e.host.scene && e.host.scene[id].info.ownerID == c
    case _ => false
  }

  // ----- what a batch of creations does

  function IdsOf(infos: seq<EntityInfo>): set<EntityID> {
    set i | 0 <= i < |infos| :: infos[i].ID
  }

  /** The batch is in the new scene and all else is as in the old. */
  ghost predicate Entered(scene: Scene, infos: seq<EntityInfo>, scene': Scene) {
    forall id :: EnteredAt(scene, infos, scene', id)
  }

  ghost predicate EnteredAt(scene: Scene, infos: seq<EntityInfo>, scene': Scene, id: EntityID) {
    if id in IdsOf(infos) then id in scene' && !scene'[id].remove && scene'[id].info in infos
        && scene'[id].info.ID == id
    else (id in scene' <==> id in scene) && (id in scene ==> scene'[id] == scene[id])
  }

  lemma {:induction false} BatchEnters(scene: Scene, infos: seq<EntityInfo>)
    ensures Entered(scene, infos, HandleAll(scene, Creations(infos)))
    decreases |infos|
  {
    if infos == [] {
    } else {
      var first := infos[0];
      var middle := scene[first.ID := Entity(first, false)];
      assert Creations(infos)[1..] == Creations(infos[1..]);
      BatchEnters(middle, infos[1..]);
      assert IdsOf(infos) == {first.ID} + IdsOf(infos[1..]);
      forall id
        ensures EnteredAt(scene, infos, HandleAll(scene, Creations(infos)), id)
      {
        assert EnteredAt(middle, infos[1..], HandleAll(middle, Creations(infos[1..])), id);
      }
    }
  }

  /** What any step does to any ID of the host's scene */
  ghost predicate Explained(t: Types, e: Entry, after: Scene, id: EntityID)
    requires t.Valid()
  {
    if CreatesID(t, e, id) then id in after && !after[id].remove && Creates(t, e, after[id].info)
    else
      && (id in after ==> id in e.host.scene && after[id].info == e.host.scene[id].info)
      && (id in after && after[id].remove ==> e.host.scene[id].remove || Asks(e, id))
      && (id in e.host.scene && id !in after
          ==> e.step.HostUpdate? && (e.host.scene[id].remove || Orphan(e.host.scene, id)))
  }

  lemma BatchExplained(t: Types, e: Entry, infos: seq<EntityInfo>, after: Scene, id: EntityID)
    requires t.Valid() && HostEnabled(t, e.host, e.step) && !e.step.HostLocal?
    requires HostStep(t, e.host, e.step).sent == Creations(infos) && Entered(e.host.scene, infos, after)
    ensures Explained(t, e, after, id)
  {
    forall info
      ensures Creates(t, e, info) <==> info in infos
    {
      if info in infos {
        var i :| 0 <= i < |infos| && infos[i] == info;
        assert Creations(infos)[i] == Creation(info);
      }
    }
    assert EnteredAt(e.host.scene, infos, after, id);
    if id in IdsOf(infos) {
      var i :| 0 <= i < |infos| && infos[i].ID == id;
      assert Creates(t, e, infos[i]);
    }
  }

  lemma NoCreationNoCreates(t: Types, e: Entry, id: EntityID)
    requires t.Valid() && !e.step.HostLocal?
    requires HostEnabled(t, e.host, e.step) ==> forall m :: m in HostStep(t, e.host, e.step).sent ==> !m.Creation?
    ensures !CreatesID(t, e, id)
  {
  }

  lemma {:induction false} OnlyDeletions(h: Host, ids: seq<EntityID>)
    ensures forall m :: m in OrphanDeletions(h, ids) ==> m.Deletion?
    decreases |ids|
  {
    if ids == [] {
    } else {
      OnlyDeletions(h, ids[..|ids| - 1]);
    }
  }

  lemma CreationExplained(t: Types, e: Entry, id: EntityID)
    requires t.Valid() && HostInv(e.host) && HostEnabled(t, e.host, e.step)
    requires e.step.HostCreate? || (e.step.Ask? && e.step.request.ForCreation?)
    ensures Explained(t, e, HostStep(t, e.host, e.step).host.scene, id)
  {
    var info := if e.step.HostCreate? then e.step.info else e.step.request.info.(ownerID := e.step.c);
    var infos := Create(t, e.host.nextID, info).0;
    BatchEnters(e.host.scene, infos);
    BatchExplained(t, e, infos, HostStep(t, e.host, e.step).host.scene, id);
  }

  lemma DeletionExplained(t: Types, e: Entry, id: EntityID)
    requires t.Valid() && HostInv(e.host) && HostEnabled(t, e.host, e.step)
    requires e.step.HostDelete? || e.step.HostMark? || (e.step.Ask? && e.step.request.ForDeletion?)
    ensures Explained(t, e, HostStep(t, e.host, e.step).host.scene, id)
  {
    NoCreationNoCreates(t, e, id);
    if e.step.HostDelete? {
      DeleteMarks(e.host, e.step.id);
    } else if e.step.Ask? {
      HandleOne(e.host.scene, Deletion(e.step.request.id));
    }
  }

  lemma {:induction false} StepExplained(t: Types, e: Entry, id: EntityID)
    requires t.Valid() && HostInv(e.host) && HostEnabled(t, e.host, e.step)
    ensures Explained(t, e, HostStep(t, e.host, e.step).host.scene, id)
  {
    if e.step.HostLocal? {
      assert Creates(t, e, LocalInfo(e.host, e.step.info));
    } else if e.step.HostCreate? || (e.step.Ask? && e.step.request.ForCreation?) {
      CreationExplained(t, e, id);
    } else if e.step.HostDelete? || e.step.HostMark? || e.step.Ask? {
      DeletionExplained(t, e, id);
    } else {
      if e.step.HostUpdate? {
        OnlyDeletions(e.host, Ascending(e.host.scene.Keys));
      }
      NoCreationNoCreates(t, e, id);
    }
  }

  // ----- causes of losses

  /** Why an entity was lost, and in which step: its deletion was asked for; or an update found that its parent was
      missing, which either had been since the entity was created, in step `made`, or had been lost in turn. Every cause
      is a finite chain up the parents that ends in one of the first two. */
  datatype Cause =
    | Asked(when: nat)
    | NeverHadParent(when: nat, made: nat)
    | ParentLost(when: nat, why: Cause)

  /** The ID has not been created, again, from this step on. */
  ghost predicate NotCreatedSince(t: Types, log: seq<Entry>, id: EntityID, from: nat)
    requires t.Valid()
  {
    forall k :: from <= k < |log| ==> !CreatesID(t, log[k], id)
  }

  /** This step created the entity, under a parent that was not there when it was done. */
  ghost predicate NamesAbsent(t: Types, e: Entry, info: EntityInfo)
    requires t.Valid()
  {
    Creates(t, e, info) && info.parentID != 0 && info.parentID !in HostStep(t, e.host, e.step).host.scene
  }

  /** The current entity of this ID was created under a parent that was not there. */
  ghost predicate MadeAlone(t: Types, log: seq<Entry>, info: EntityInfo, made: nat)
    requires t.Valid()
  {
    made < |log| && NamesAbsent(t, log[made], info) && NotCreatedSince(t, log, info.ID, made + 1)
  }

  ghost predicate Justified(t: Types, log: seq<Entry>, id: EntityID, cause: Cause)
    requires t.Valid()
    decreases cause
  {
    && cause.when < |log|
    && NotCreatedSince(t, log, id, cause.when)
    && var e := log[cause.when];
       match cause
       case Asked(_) => Asks(e, id)
       case NeverHadParent(when, made) =>
         e.step.HostUpdate? && Orphan(e.host.scene, id) && MadeAlone(t, log[..when], e.host.scene[id].info, made)
       case ParentLost(when, why) =>
         e.step.HostUpdate? && Orphan(e.host.scene, id)
             && Justified(t, log[..when], e.host.scene[id].info.parentID, why)
  }

  ghost predicate Blamed(t: Types, log: seq<Entry>, id: EntityID)
    requires t.Valid()
  {
    exists cause :: Justified(t, log, id, cause)
  }

  // ----- what stays true

  predicate Lives(h: Host, id: EntityID) {
    id in h.scene && !h.scene[id].remove
  }

  /** The entity is as it was last created. */
  ghost predicate AsCreated(t: Types, p: Past, id: EntityID)
    requires t.Valid()
  {
    id in p.world.host.scene ==> exists made :: MadeAs(t, p.log, p.world.host.scene[id].info, made)
  }

  ghost predicate MadeAs(t: Types, log: seq<Entry>, info: EntityInfo, made: nat)
    requires t.Valid()
  {
    made < |log| && Creates(t, log[made], info) && NotCreatedSince(t, log, info.ID, made + 1)
  }

  /** If its parent is missing, there is a reason. */
  ghost predicate AbsenceExplained(t: Types, p: Past, id: EntityID)
    requires t.Valid()
  {
    Orphan(p.world.host.scene, id) ==>
      || Blamed(t, p.log, p.world.host.scene[id].info.parentID)
      || exists made :: MadeAlone(t, p.log, p.world.host.scene[id].info, made)
  }

  /** Whatever was created lives, or there is a cause. */
  ghost predicate LossCaused(t: Types, p: Past, id: EntityID)
    requires t.Valid()
  {
    (id in p.world.host.scene || exists k :: 0 <= k < |p.log| && CreatesID(t, p.log[k], id)) ==>
      Lives(p.world.host, id) || Blamed(t, p.log, id)
  }

  ghost predicate Inv(t: Types, p: Past)
    requires t.Valid()
  {
    HostInv(p.world.host) && forall id :: AsCreated(t, p, id) && AbsenceExplained(t, p, id) && LossCaused(t, p, id)
  }

  // ----- every step keeps it

  lemma StillNotCreated(t: Types, log: seq<Entry>, e: Entry, id: EntityID, from: nat)
    requires t.Valid() && NotCreatedSince(t, log, id, from) && !CreatesID(t, e, id)
    ensures NotCreatedSince(t, log + [e], id, from)
  {
  }

  lemma StillJustified(t: Types, log: seq<Entry>, e: Entry, id: EntityID, cause: Cause)
    requires t.Valid() && Justified(t, log, id, cause) && !CreatesID(t, e, id)
    ensures Justified(t, log + [e], id, cause)
  {
    StillNotCreated(t, log, e, id, cause.when);
    assert (log + [e])[cause.when] == log[cause.when] && (log + [e])[..cause.when] == log[..cause.when];
  }

  lemma StillBlamed(t: Types, log: seq<Entry>, e: Entry, id: EntityID)
    requires t.Valid() && Blamed(t, log, id) && !CreatesID(t, e, id)
    ensures Blamed(t, log + [e], id)
  {
    var cause :| Justified(t, log, id, cause);
    StillJustified(t, log, e, id, cause);
  }

  lemma StillMadeAlone(t: Types, log: seq<Entry>, e: Entry, info: EntityInfo, made: nat)
    requires t.Valid() && MadeAlone(t, log, info, made) && !CreatesID(t, e, info.ID)
    ensures MadeAlone(t, log + [e], info, made)
  {
    StillNotCreated(t, log, e, info.ID, made + 1);
  }

  lemma AskedJustified(t: Types, log: seq<Entry>, e: Entry, id: EntityID)
    requires t.Valid() && Asks(e, id) && !CreatesID(t, e, id)
    ensures Justified(t, log + [e], id, Asked(|log|))
  {
    assert (log + [e])[|log|] == e;
  }

  /** An update loses an orphan for the reason its parent is missing. */
  lemma OrphanJustified(t: Types, p: Past, e: Entry, id: EntityID) returns (cause: Cause)
    requires t.Valid() && e == Entry(p.world.host, HostUpdate) && Orphan(p.world.host.scene, id)
             && AbsenceExplained(t, p, id)
    ensures cause.when == |p.log| && !cause.Asked? && Justified(t, p.log + [e], id, cause)
  {
    var info := p.world.host.scene[id].info;
    var log := p.log + [e];
    OnlyDeletions(e.host, Ascending(e.host.scene.Keys));
    NoCreationNoCreates(t, e, id);
    assert log[|p.log|] == e && log[..|p.log|] == p.log;
    if Blamed(t, p.log, info.parentID) {
      var why :| Justified(t, p.log, info.parentID, why);
      cause := ParentLost(|p.log|, why);
    } else {
      var made: nat :| MadeAlone(t, p.log, info, made);
      cause := NeverHadParent(|p.log|, made);
    }
  }

  lemma AsCreatedKept(t: Types, p: Past, after: Past, e: Entry, id: EntityID)
    requires t.Valid() && Inv(t, p) && e.host == p.world.host && after.log == p.log + [e]
    requires Explained(t, e, after.world.host.scene, id) && Keyed(after.world.host.scene)
    ensures AsCreated(t, after, id)
  {
    if id in after.world.host.scene {
      var info := after.world.host.scene[id].info;
      if CreatesID(t, e, id) {
        assert after.log[|p.log|] == e;
        assert MadeAs(t, after.log, info, |p.log|);
      } else {
        assert AsCreated(t, p, id);
        var made: nat :| MadeAs(t, p.log, info, made);
        StillNotCreated(t, p.log, e, id, made + 1);
        assert MadeAs(t, after.log, info, made);
      }
    }
  }

  /** What is gone after a step, or marked, though it was not created in it, has a cause. */
  lemma NotLivingBlamed(t: Types, p: Past, after: Past, e: Entry, id: EntityID)
    requires t.Valid() && Inv(t, p) && e.host == p.world.host && after.log == p.log + [e]
    requires Explained(t, e, after.world.host.scene, id) && !CreatesID(t, e, id) && !Lives(after.world.host, id)
    requires id in p.world.host.scene || Blamed(t, p.log, id)
    ensures Blamed(t, after.log, id)
  {
    assert LossCaused(t, p, id) && AbsenceExplained(t, p, id);
    if Blamed(t, p.log, id) {
      StillBlamed(t, p.log, e, id);
    } else if Asks(e, id) {
      AskedJustified(t, p.log, e, id);
    } else {
      var cause := OrphanJustified(t, p, e, id);
    }
  }

  lemma AbsenceKept(t: Types, p: Past, after: Past, e: Entry, id: EntityID)
    requires t.Valid() && Inv(t, p) && e.host == p.world.host && HostEnabled(t, e.host, e.step)
    requires after.log == p.log + [e] && after.world.host == HostStep(t, e.host, e.step).host
    requires forall i :: Explained(t, e, after.world.host.scene, i)
    requires Keyed(after.world.host.scene)
    ensures AbsenceExplained(t, after, id)
  {
    var scene := after.world.host.scene;
    if Orphan(scene, id) {
      var info := scene[id].info;
      var parent := info.parentID;
      assert Explained(t, e, scene, id) && Explained(t, e, scene, parent) && AbsenceExplained(t, p, id);
      if CreatesID(t, e, id) {
        assert after.log[|p.log|] == e;
        assert MadeAlone(t, after.log, info, |p.log|);
      } else if parent in p.world.host.scene || Blamed(t, p.log, parent) {
        NotLivingBlamed(t, p, after, e, parent);
      } else {
        var made: nat :| MadeAlone(t, p.log, info, made);
        StillMadeAlone(t, p.log, e, info, made);
      }
    }
  }

  lemma LossKept(t: Types, p: Past, after: Past, e: Entry, id: EntityID)
    requires t.Valid() && Inv(t, p) && e.host == p.world.host && after.log == p.log + [e]
    requires Explained(t, e, after.world.host.scene, id)
    ensures LossCaused(t, after, id)
  {
    assert LossCaused(t, p, id);
    if !CreatesID(t, e, id) && !Lives(after.world.host, id) {
      if k :| 0 <= k < |after.log| && CreatesID(t, after.log[k], id) {
        assert k < |p.log| && p.log[k] == after.log[k];
      }
      if id in p.world.host.scene || Blamed(t, p.log, id) {
        NotLivingBlamed(t, p, after, e, id);
      }
    }
  }

  lemma StepKeepsInv(t: Types, p: Past, step: Step)
    requires t.Valid() && Enabled(t, p.world, step) && Inv(t, p)
    ensures Inv(t, Advance(t, p, step))
  {
    var e := Entry(p.world.host, step);
    var after := Advance(t, p, step);
    StepClient(t, p.world, step, HOST);
    HostStepKeepsInv(t, p.world.host, step);
    forall id
      ensures Explained(t, e, after.world.host.scene, id)
    {
      StepExplained(t, e, id);
    }
    forall id
      ensures AsCreated(t, after, id) && AbsenceExplained(t, after, id) && LossCaused(t, after, id)
    {
      AsCreatedKept(t, p, after, e, id);
      AbsenceKept(t, p, after, e, id);
      LossKept(t, p, after, e, id);
    }
  }

  lemma {:induction false} RunKeepsInv(t: Types, p: Past, steps: seq<Step>)
    requires t.Valid() && CanRun(t, p.world, steps) && Inv(t, p)
    ensures Inv(t, Exec(t, p, steps))
    decreases |steps|
  {
    if steps == [] {
    } else {
      StepKeepsInv(t, p, steps[0]);
      RunKeepsInv(t, Advance(t, p, steps[0]), steps[1..]);
    }
  }

  /** In every reachable state: each of the host's entities is as it was last created; a parent that is missing
      was so when it was named, or was lost for a cause; and whatever was created lives, or was lost for a
      cause. */
  lemma Reachable(t: Types, steps: seq<Step>, id: EntityID)
    requires t.Valid() && CanRun(t, Init(), steps)
    ensures var p := Exec(t, Start(), steps);
            && p.world == Replication.Exec(t, Init(), steps)
            && HostInv(p.world.host) && AsCreated(t, p, id) && AbsenceExplained(t, p, id) && LossCaused(t, p, id)
  {
    RunKeepsInv(t, Start(), steps);
  }

  // ----- who deletes

  /** Exactly which deletions a step broadcasts */
  lemma DeletionsBroadcast(t: Types, h: Host, step: Step, id: EntityID)
    requires t.Valid() && h.networkReady && Keyed(h.scene) && HostEnabled(t, h, step)
    ensures Deletion(id) in HostStep(t, h, step).sent <==>
            id in h.scene
            && match step
               case HostDelete(i) => i == id && id >= 0
               case Ask(c, ForDeletion(i)) => i == id && h.scene[id].info.ownerID == c
               case HostUpdate => Orphan(h.scene, id) && id >= 0
               case _ => false
  {
    if step.HostUpdate? {
      OrphanCascade.OneUpdate(h, id);
    } else if step.HostDelete? {
      DeleteMarks(h, step.id);
    }
  }

  /** Main theorem: after any run, a deletion is broadcast in a step that asks for it, on the host or as the
      request of the owner, or by an update, of an orphan, and then a chain of parents leads from it to one
      whose deletion was asked for or to one that was created without its parent. */
  lemma DeletionAuthority(t: Types, steps: seq<Step>, step: Step, id: EntityID) returns (cause: Cause)
    requires t.Valid() && CanRun(t, Init(), steps) && Enabled(t, Replication.Exec(t, Init(), steps), step)
    requires Deletion(id) in Sent(t, Replication.Exec(t, Init(), steps), step)
    ensures var p := Exec(t, Start(), steps);
            && Justified(t, Advance(t, p, step).log, id, cause) && cause.when == |p.log|
            && (cause.Asked? <==> !step.HostUpdate?)
            && (step.HostUpdate? ==> Orphan(p.world.host.scene, id))
  {
    var p := Exec(t, Start(), steps);
    var e := Entry(p.world.host, step);
    Reachable(t, steps, id);
    DeletionsBroadcast(t, p.world.host, step, id);
    if step.HostUpdate? {
      cause := OrphanJustified(t, p, e, id);
    } else {
      NoCreationNoCreates(t, e, id);
      AskedJustified(t, p.log, e, id);
      cause := Asked(|p.log|);
    }
  }

  // ----- what is created can be created anywhere

  predicate AllSound(builders: set<Str>, infos: seq<EntityInfo>) {
    forall i :: 0 <= i < |infos| ==> Creatable(builders, infos[i].kind, infos[i].name) && infos[i].ID != 0
  }

  lemma {:induction false} CreateSound(t: Types, next: EntityID, info: EntityInfo)
    requires t.Valid() && t.Covers(info) && next > 0
    ensures AllSound(t.builders, Create(t, next, info).0) && Create(t, next, info).1 > 0
    decreases t.Measure(info), 1, 0
  {
    if t.Accepts(info) {
      assert t.Falls(info.kind);
      CreateChildrenSound(t, ChildrenOf(t.children, info.kind), FirstID(next, info), info.ownerID, RootID(next, info),
          t.rank[info.kind]);
    }
  }

  lemma {:induction false} CreateChildrenSound(t: Types, children: seq<Child>, next: EntityID, ownerID: ClientID,
      parent: EntityID, bound: nat)
    requires t.Valid() && t.Bounded(children, bound) && next > 0
    ensures AllSound(t.builders, CreateChildren(t, children, next, ownerID, parent, bound).0)
    ensures CreateChildren(t, children, next, ownerID, parent, bound).1 > 0
    decreases bound, 2, |children|
  {
    if children == [] {
    } else {
      var info := ChildInfo(children[0], ownerID, parent);
      var (first, mid) := Create(t, next, info);
      CreateSound(t, next, info);
      CreateChildrenSound(t, children[1..], mid, ownerID, parent, bound);
      CreateChildrenStep(t, children, next, ownerID, parent, bound, first, mid);
    }
  }

  lemma CreatedSound(t: Types, e: Entry, info: EntityInfo)
    requires t.Valid() && HostInv(e.host) && Creates(t, e, info)
    ensures Creatable(t.builders, info.kind, info.name) && info.ID != 0
  {
    if e.step.HostCreate? {
      CreateSound(t, e.host.nextID, e.step.info);
    } else if e.step.Ask? && e.step.request.ForCreation? {
      CreateSound(t, e.host.nextID, e.step.request.info.(ownerID := e.step.c));
    } else if e.step.HostUpdate? {
      OnlyDeletions(e.host, Ascending(e.host.scene.Keys));
    }
  }

  predicate SceneSound(t: Types, scene: Scene) {
    forall id :: id in scene ==> Creatable(t.builders, scene[id].info.kind, scene[id].info.name) && id != 0
  }

  lemma StepKeepsSound(t: Types, h: Host, step: Step)
    requires t.Valid() && HostInv(h) && HostEnabled(t, h, step) && SceneSound(t, h.scene)
    ensures SceneSound(t, HostStep(t, h, step).host.scene)
    ensures forall m :: m in HostStep(t, h, step).sent ==> Sound(t.builders, m)
  {
    var e := Entry(h, step);
    var r := HostStep(t, h, step);
    HostStepKeepsInv(t, h, step);
    forall id | id in r.host.scene
      ensures Creatable(t.builders, r.host.scene[id].info.kind, r.host.scene[id].info.name) && id != 0
    {
      StepExplained(t, e, id);
      if CreatesID(t, e, id) {
        CreatedSound(t, e, r.host.scene[id].info);
      }
    }
    forall m | m in r.sent
      ensures Sound(t.builders, m)
    {
      if m.Creation? {
        CreatedSound(t, e, m.info);
      } else {
        NoSnapshots(t, h, step, m);
      }
    }
  }

  lemma {:induction false} NoSnapshots(t: Types, h: Host, step: Step, m: Message)
    requires t.Valid() && HostEnabled(t, h, step) && m in HostStep(t, h, step).sent
    ensures !m.Snapshot?
  {
    match step
    case HostUpdate => OnlyDeletions(h, Ascending(h.scene.Keys));
    case HostCreate(info) => assert m in Creations(Create(t, h.nextID, info).0);
    case Ask(c, ForCreation(info)) => assert m in Creations(Create(t, h.nextID, info.(ownerID := c)).0);
    case _ =>
  }

  predicate InflightSound(t: Types, w: World) {
    forall c :: c in w.clients ==> AllInflightSound(t, w.clients[c])
  }

  predicate AllInflightSound(t: Types, k: Client) {
    forall i :: 0 <= i < |k.inflight| ==> Sound(t.builders, k.inflight[i])
  }

  lemma StepKeepsInflight(t: Types, w: World, step: Step)
    requires t.Valid() && Enabled(t, w, step) && HostInv(w.host) && SceneSound(t, w.host.scene) && InflightSound(t, w)
    ensures InflightSound(t, Apply(t, w, step))
  {
    var after := Apply(t, w, step);
    StepKeepsSound(t, w.host, step);
    forall c | c in after.clients
      ensures AllInflightSound(t, after.clients[c])
    {
      if c in w.clients {
        assert AllInflightSound(t, w.clients[c]);
        if step == HandleConnected(c) {
          SnapshotSound(t, w.host.scene);
        }
      }
    }
  }

  lemma SnapshotSound(t: Types, scene: Scene)
    requires SceneSound(t, scene) && Keyed(scene)
    ensures forall i :: 0 <= i < |SnapshotOf(scene)| ==> Sound(t.builders, SnapshotOf(scene)[i])
  {
    var ids := KeysInOrder(scene);
    AllSnapshotsSound(t, scene, ids);
  }

  lemma AllSnapshotsSound(t: Types, scene: Scene, ids: seq<EntityID>)
    requires SceneSound(t, scene) && Keyed(scene) && Lists(ids, scene)
    ensures forall i :: 0 <= i < |Snapshots(scene, ids)| ==> Sound(t.builders, Snapshots(scene, ids)[i])
  {
    var ms := Snapshots(scene, ids);
    forall i | 0 <= i < |ms|
      ensures Sound(t.builders, ms[i])
    {
      var id := ids[|ids| - 1 - i];
      assert id in scene && ms[i] == Snapshot(scene[id].info);
    }
  }

  lemma {:induction false} RunKeepsSound(t: Types, w: World, steps: seq<Step>)
    requires t.Valid() && CanRun(t, w, steps) && HostInv(w.host) && SceneSound(t, w.host.scene) && InflightSound(t, w)
    ensures var after := Replication.Exec(t, w, steps);
            HostInv(after.host) && SceneSound(t, after.host.scene) && InflightSound(t, after)
    decreases |steps|
  {
    if steps == [] {
    } else {
      StepClient(t, w, steps[0], HOST);
      StepKeepsSound(t, w.host, steps[0]);
      StepKeepsInflight(t, w, steps[0]);
      HostStepKeepsInv(t, w.host, steps[0]);
      RunKeepsSound(t, Apply(t, w, steps[0]), steps[1..]);
    }
  }

  /** Whatever reaches a client with the host's types registered, it can create: so its handlers do to its scene
      just what Handle says, and never follow a null pointer. */
  lemma MessagesHandled(t: Types, steps: seq<Step>, c: ClientID, i: nat, receiver: Host)
    requires t.Valid() && CanRun(t, Init(), steps)
    requires var w := Replication.Exec(t, Init(), steps); c in w.clients && i < |w.clients[c].inflight|
    ensures var m := Replication.Exec(t, Init(), steps).clients[c].inflight[i];
            Sound(t.builders, m) && Arrive(t.builders, receiver, m) == receiver.(scene := Handle(receiver.scene, m))
  {
    RunKeepsSound(t, Init(), steps);
    var w := Replication.Exec(t, Init(), steps);
    assert AllInflightSound(t, w.clients[c]);
    SoundArrives(t.builders, receiver, w.clients[c].inflight[i]);
  }

  // ----- when deletions go back to somebody asking

  /** The chain of parents ends in a deletion that was asked for. */
  predicate EndsInAsk(cause: Cause) {
    match cause
    case Asked(_) => true
    case NeverHadParent(_, _) => false
    case ParentLost(_, why) => EndsInAsk(why)
  }

  /** No creation named a parent that was not there. */
  ghost predicate ParentsPresent(t: Types, log: seq<Entry>)
    requires t.Valid()
  {
    forall k, info :: 0 <= k < |log| ==> !NamesAbsent(t, log[k], info)
  }

  lemma {:induction false} AllAsked(t: Types, log: seq<Entry>, id: EntityID, cause: Cause)
    requires t.Valid() && ParentsPresent(t, log) && Justified(t, log, id, cause)
    ensures EndsInAsk(cause)
    decreases cause
  {
    match cause
    case Asked(_) =>
    case NeverHadParent(_, _) =>
    case ParentLost(when, why) =>
      forall k, info | 0 <= k < when
        ensures !NamesAbsent(t, log[..when][k], info)
      {
        assert !NamesAbsent(t, log[k], info);
      }
      AllAsked(t, log[..when], log[when].host.scene[id].info.parentID, why);
  }

  /** Main theorem: if every creation in a run named a parent that was there, every deletion then broadcast was
      asked for, or a chain of parents leads from it to one that was; nothing else explains it. */
  lemma {:induction false} DeletionAsked(t: Types, steps: seq<Step>, step: Step, id: EntityID)
    requires t.Valid() && CanRun(t, Init(), steps) && Enabled(t, Replication.Exec(t, Init(), steps), step)
    requires Deletion(id) in Sent(t, Replication.Exec(t, Init(), steps), step)
    requires ParentsPresent(t, Exec(t, Start(), steps).log)
    ensures var log := Advance(t, Exec(t, Start(), steps), step).log;
            Blamed(t, log, id) && forall cause :: Justified(t, log, id, cause) ==> EndsInAsk(cause)
  {
    var p := Exec(t, Start(), steps);
    var e := Entry(p.world.host, step);
    var cause := DeletionAuthority(t, steps, step, id);
    RunKeepsInv(t, Start(), steps);
    DeletionsBroadcast(t, p.world.host, step, id);
    if step.HostUpdate? {
      OnlyDeletions(e.host, Ascending(e.host.scene.Keys));
    }
    NoCreationNoCreates(t, e, id);
    forall k, info | 0 <= k < |p.log + [e]|
      ensures !NamesAbsent(t, (p.log + [e])[k], info)
    {
      if k == |p.log| {
        NoCreationNoCreates(t, e, info.ID);
      } else {
        assert !NamesAbsent(t, p.log[k], info);
      }
    }
    forall cause | Justified(t, p.log + [e], id, cause)
      ensures EndsInAsk(cause)
    {
      AllAsked(t, p.log + [e], id, cause);
    }
  }

  // ----- and when they do not

  ghost predicate EverCreated(t: Types, log: seq<Entry>, id: EntityID)
    requires t.Valid()
  {
    exists k :: 0 <= k < |log| && CreatesID(t, log[k], id)
  }

  /** In this step the host did something it could, to a scene all of whose entities had been created. */
  ghost predicate EntryOk(t: Types, log: seq<Entry>, k: nat)
    requires t.Valid() && k < |log|
  {
    HostEnabled(t, log[k].host, log[k].step) && forall id :: id in log[k].host.scene ==> EverCreated(t, log[..k], id)
  }

  ghost predicate LogOk(t: Types, log: seq<Entry>)
    requires t.Valid()
  {
    forall k :: 0 <= k < |log| ==> EntryOk(t, log, k)
  }

  lemma {:induction false} StepKeepsLog(t: Types, p: Past, step: Step)
    requires t.Valid() && Enabled(t, p.world, step) && Inv(t, p) && LogOk(t, p.log)
    ensures LogOk(t, Advance(t, p, step).log)
  {
    var log := Advance(t, p, step).log;
    forall k | 0 <= k < |log|
      ensures EntryOk(t, log, k)
    {
      if k < |p.log| {
        assert EntryOk(t, p.log, k) && log[..k] == p.log[..k];
      } else {
        assert log[..k] == p.log;
        forall id | id in p.world.host.scene
          ensures EverCreated(t, p.log, id)
        {
          assert AsCreated(t, p, id);
          var made: nat :| MadeAs(t, p.log, p.world.host.scene[id].info, made);
          assert CreatesID(t, p.log[made], id);
        }
      }
    }
  }

  lemma {:induction false} RunKeepsLog(t: Types, p: Past, steps: seq<Step>)
    requires t.Valid() && CanRun(t, p.world, steps) && Inv(t, p) && LogOk(t, p.log)
    ensures LogOk(t, Exec(t, p, steps).log)
    decreases |steps|
  {
    if steps == [] {
    } else {
      StepKeepsInv(t, p, steps[0]);
      StepKeepsLog(t, p, steps[0]);
      RunKeepsLog(t, Advance(t, p, steps[0]), steps[1..]);
    }
  }

  /** What was lost, for whatever cause, had been created. */
  lemma {:induction false} LostWasCreated(t: Types, log: seq<Entry>, id: EntityID, cause: Cause)
    requires t.Valid() && LogOk(t, log) && Justified(t, log, id, cause)
    ensures EverCreated(t, log, id)
  {
    var when := cause.when;
    assert EntryOk(t, log, when) && id in log[when].host.scene;
    var k :| 0 <= k < |log[..when]| && CreatesID(t, log[..when][k], id);
    assert log[k] == log[..when][k];
  }

  /** The other half: after any run, a networked entity created under a parent that has never been is deleted by
      the next update, and no cause of that ends in anybody asking. */
  lemma {:induction false} DeletionUnasked(t: Types, steps: seq<Step>, step: Step, id: EntityID)
    requires t.Valid() && CanRun(t, Init(), steps) && Enabled(t, Replication.Exec(t, Init(), steps), step) && id > 0
    requires CreatesID(t, Entry(Replication.Exec(t, Init(), steps).host, step), id)
    requires var after := Advance(t, Exec(t, Start(), steps), step);
             id in after.world.host.scene
             && var parent := after.world.host.scene[id].info.parentID;
                 parent != 0 && !EverCreated(t, after.log, parent)
    ensures var after := Advance(t, Exec(t, Start(), steps), step);
            && Deletion(id) in Sent(t, after.world, HostUpdate)
            && forall cause :: Justified(t, Advance(t, after, HostUpdate).log, id, cause) ==> !EndsInAsk(cause)
  {
    var p := Exec(t, Start(), steps);
    var after := Advance(t, p, step);
    RunKeepsInv(t, Start(), steps);
    RunKeepsLog(t, Start(), steps);
    StepKeepsInv(t, p, step);
    StepKeepsLog(t, p, step);
    var parent := after.world.host.scene[id].info.parentID;
    assert AsCreated(t, after, parent);
    DeletionsBroadcast(t, after.world.host, HostUpdate, id);
    forall cause | Justified(t, Advance(t, after, HostUpdate).log, id, cause)
      ensures !EndsInAsk(cause)
    {
      UpdateUnasked(t, p, after, Entry(p.world.host, step), id, cause);
    }
  }

  lemma {:induction false} UpdateUnasked(t: Types, p: Past, after: Past, e: Entry, id: EntityID, cause: Cause)
    requires t.Valid() && after.log == p.log + [e] && CreatesID(t, e, id) && LogOk(t, after.log)
    requires id in after.world.host.scene && !EverCreated(t, after.log, after.world.host.scene[id].info.parentID)
    requires Justified(t, after.log + [Entry(after.world.host, HostUpdate)], id, cause)
    ensures !EndsInAsk(cause)
  {
    var n := |p.log|;
    var log := after.log + [Entry(after.world.host, HostUpdate)];
    assert log[n] == e && log[n + 1] == Entry(after.world.host, HostUpdate) && log[..n + 1] == after.log;
    assert cause.when == n + 1;
    if cause.ParentLost? {
      LostWasCreated(t, after.log, after.world.host.scene[id].info.parentID, cause.why);
    }
  }
}
