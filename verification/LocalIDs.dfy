/** The IDs of local entities: createEntity counts them down from -1, and what that leaves of the scene. */
module LocalIDs {
  import opened Entities
  import opened SceneTree
  import opened Scenes
  import opened Replication
  import opened History
  import opened Ordering
  import opened Ownership

  /** createEntity for a new local entity, which gets its ID from the counter */
  predicate TakesLocalID(step: Step) {
    step.HostLocal? && step.info.ID == 0
  }

  /** How many steps did so */
  function LocalsIn(log: seq<Entry>): nat {
    if log == [] then 0
    else LocalsIn(log[..|log| - 1]) + if TakesLocalID(log[|log| - 1].step) then 1 else 0
  }

  // ----- one creation

  /** The scene gets just this entity under this ID. */
  ghost predicate PutInto(scene: Scene, id: EntityID, entity: Entity, after: Scene) {
    && after.Keys == scene.Keys + {id}
    && after[id] == entity
    && forall other :: other in scene && other != id ==> after[other] == scene[other]
  }

  /** A new local entity gets the next local ID, the counter moves on, and everything else stays as it was. */
  lemma LocalPutInto(t: Types, h: Host, step: Step)
    requires t.Valid() && HostEnabled(t, h, step) && TakesLocalID(step)
    ensures var r := HostStep(t, h, step);
            && PutInto(h.scene, h.localID, Entity(step.info.(ID := h.localID), false), r.host.scene)
            && r.host == h.(localID := h.localID - 1, scene := r.host.scene) && r.sent == []
  {
  }

  lemma OthersKeepCounter(t: Types, h: Host, step: Step)
    requires t.Valid() && HostEnabled(t, h, step) && !TakesLocalID(step)
    ensures HostStep(t, h, step).host.localID == h.localID
  {
  }

  // ----- every run

  /** The n-th local entity gets the ID -n. */
  ghost predicate Counted(p: Past) {
    && p.world.host.localID == -1 - LocalsIn(p.log)
    && forall k :: 0 <= k < |p.log| ==> p.log[k].host.localID == -1 - LocalsIn(p.log[..k])
  }

  /** Local IDs still to come are free, unless somebody has chosen them. */
  ghost predicate LocalsWereChosen(p: Past) {
    forall id :: id in p.world.host.scene && id <= p.world.host.localID
        ==> exists k :: 0 <= k < |p.log| && Chosen(p.log[k].step, id)
  }

  lemma StepKeepsCounted(t: Types, p: Past, step: Step)
    requires t.Valid() && Enabled(t, p.world, step) && Counted(p)
    ensures Counted(Advance(t, p, step))
  {
    var after := Advance(t, p, step);
    StepClient(t, p.world, step, HOST);
    assert after.log[..|p.log|] == p.log;
    if !step.Join? && !step.HandleConnected? && !step.Leave? && !step.Deliver? && !step.ClientUpdate?
        && !step.ClientLocal? && !step.ClientMark? {
      if TakesLocalID(step) {
        LocalPutInto(t, p.world.host, step);
      } else {
        OthersKeepCounter(t, p.world.host, step);
      }
    }
    forall k | 0 <= k < |after.log|
      ensures after.log[k].host.localID == -1 - LocalsIn(after.log[..k])
    {
      if k < |p.log| {
        assert after.log[..k] == p.log[..k];
      }
    }
  }

  /** What is created without an ID chosen for it gets one that is above the local IDs to come. */
  lemma CreatedAbove(t: Types, e: Entry, info: EntityInfo)
    requires t.Valid() && HostInv(e.host) && Creates(t, e, info)
    ensures info.ID > HostStep(t, e.host, e.step).host.localID || Chosen(e.step, info.ID)
  {
    if e.step.HostCreate? || (e.step.Ask? && e.step.request.ForCreation?) {
      var asked := if e.step.HostCreate? then e.step.info else e.step.request.info.(ownerID := e.step.c);
      AnnouncedAbove(t, e.host.nextID, asked, info);
    } else if e.step.HostUpdate? {
      OnlyDeletions(e.host, Ascending(e.host.scene.Keys));
    }
  }

  lemma AnnouncedAbove(t: Types, next: EntityID, asked: EntityInfo, info: EntityInfo)
    requires t.Valid() && t.Covers(asked) && info in Create(t, next, asked).0
    ensures info.ID >= next || (info.ID == asked.ID && asked.ID != 0)
  {
    var forest, end := CreateShape(t, next, asked);
    if info in forest {
      var i :| 0 <= i < |forest| && forest[i] == info;
      assert info.ID in IdsOf(forest);
    }
  }

  lemma CounterFalls(t: Types, h: Host, step: Step)
    requires t.Valid() && HostEnabled(t, h, step)
    ensures HostStep(t, h, step).host.localID <= h.localID
  {
    if TakesLocalID(step) {
      LocalPutInto(t, h, step);
    } else {
      OthersKeepCounter(t, h, step);
    }
  }

  lemma StepKeepsLocals(t: Types, p: Past, step: Step)
    requires t.Valid() && Enabled(t, p.world, step) && HostInv(p.world.host) && LocalsWereChosen(p)
    ensures LocalsWereChosen(Advance(t, p, step))
  {
    var e := Entry(p.world.host, step);
    var after := Advance(t, p, step);
    StepClient(t, p.world, step, HOST);
    HostStepKeepsInv(t, p.world.host, step);
    CounterFalls(t, p.world.host, step);
    assert after.log[|p.log|] == e;
    forall id | id in after.world.host.scene && id <= after.world.host.localID
      ensures exists k :: 0 <= k < |after.log| && Chosen(after.log[k].step, id)
    {
      StepExplained(t, e, id);
      if CreatesID(t, e, id) {
        CreatedAbove(t, e, after.world.host.scene[id].info);
        assert Chosen(after.log[|p.log|].step, id);
      } else {
        var k :| 0 <= k < |p.log| && Chosen(p.log[k].step, id);
        assert after.log[k] == p.log[k];
      }
    }
  }

  lemma {:induction false} RunKeepsLocals(t: Types, p: Past, steps: seq<Step>)
    requires t.Valid() && CanRun(t, p.world, steps) && HostInv(p.world.host) && Counted(p) && LocalsWereChosen(p)
    ensures var after := History.Exec(t, p, steps);
            HostInv(after.world.host) && Counted(after) && LocalsWereChosen(after)
    decreases |steps|
  {
    if steps == [] {
    } else {
      StepKeepsCounted(t, p, steps[0]);
      StepKeepsLocals(t, p, steps[0]);
      StepClient(t, p.world, steps[0], HOST);
      HostStepKeepsInv(t, p.world.host, steps[0]);
      RunKeepsLocals(t, Advance(t, p, steps[0]), steps[1..]);
    }
  }

  lemma {:induction false} LocalsGrow(log: seq<Entry>, i: nat, j: nat)
    requires i <= j <= |log|
    ensures LocalsIn(log[..i]) <= LocalsIn(log[..j])
    decreases j
  {
    if i < j {
      LocalsGrow(log, i, j - 1);
      assert log[..j][..j - 1] == log[..j - 1];
    }
  }

  lemma {:induction false} LocalsStep(log: seq<Entry>, i: nat)
    requires i < |log|
    ensures LocalsIn(log[..i + 1]) == LocalsIn(log[..i]) + if TakesLocalID(log[i].step) then 1 else 0
  {
    assert log[..i + 1][..i] == log[..i];
  }

  /** Over any run, no two local entities get the same ID: later ones get smaller ones. */
  lemma LocalIDsFall(t: Types, steps: seq<Step>, i: nat, j: nat)
    requires t.Valid() && CanRun(t, Init(), steps)
    requires i < j < |History.Exec(t, Start(), steps).log|
    requires TakesLocalID(History.Exec(t, Start(), steps).log[i].step)
    ensures var log := History.Exec(t, Start(), steps).log; log[j].host.localID < log[i].host.localID < 0
  {
    RunKeepsLocals(t, Start(), steps);
    var log := History.Exec(t, Start(), steps).log;
    LocalsStep(log, i);
    LocalsGrow(log, i + 1, j);
  }

  /** The entity is put under this ID; it replaces one exactly if that is taken, and
      then an earlier step chose it. */
  ghost predicate LocalAfter(p: Past, info: EntityInfo, id: EntityID, after: Scene) {
    var before := p.world.host.scene;
    && PutInto(before, id, Entity(info.(ID := id), false), after)
    && |after| == |before| + (if id in before then 0 else 1)
    && (id in before ==> exists k :: 0 <= k < |p.log| && Chosen(p.log[k].step, id))
  }

  lemma {:induction false} LocalReplaces(p: Past, info: EntityInfo, id: EntityID, after: Scene)
    requires id == p.world.host.localID && LocalsWereChosen(p)
    requires PutInto(p.world.host.scene, id, Entity(info.(ID := id), false), after)
    ensures LocalAfter(p, info, id, after)
  {
    var before := p.world.host.scene;
    SizeAfter(before, id, after);
  }

  lemma {:induction false} CounterExact(t: Types, steps: seq<Step>)
    requires t.Valid() && CanRun(t, Init(), steps)
    ensures var p := History.Exec(t, Start(), steps);
            p.world.host.localID == -1 - LocalsIn(p.log) && LocalsWereChosen(p)
  {
    RunKeepsLocals(t, Start(), steps);
  }

  /** Main theorem: after any run, a new local entity gets the ID -n if it is the n-th, all others stay, and it replaces
      one if and only if that ID is taken, and then somebody chose it in an earlier step. */
  lemma {:induction false} LocalReplacementExact(t: Types, steps: seq<Step>, step: Step)
    requires t.Valid() && CanRun(t, Init(), steps) && TakesLocalID(step)
    requires HostEnabled(t, Replication.Exec(t, Init(), steps).host, step)
    ensures var p := History.Exec(t, Start(), steps);
            LocalAfter(p, step.info, -1 - LocalsIn(p.log), HostStep(t, p.world.host, step).host.scene)
  {
    CounterExact(t, steps);
    var p := History.Exec(t, Start(), steps);
    LocalPutInto(t, p.world.host, step);
    LocalReplaces(p, step.info, p.world.host.localID, HostStep(t, p.world.host, step).host.scene);
  }

  lemma SizeAfter(scene: Scene, id: EntityID, after: Scene)
    requires after.Keys == scene.Keys + {id}
    ensures |after| == |scene| + if id in scene then 0 else 1
  {
    assert |after| == |after.Keys| && |scene| == |scene.Keys|;
    if id in scene {
      assert after.Keys == scene.Keys;
    }
  }

  // ----- creations one after another

  function LocalSteps(infos: seq<EntityInfo>): seq<Step> {
    if infos == [] then [] else [HostLocal(infos[0])] + LocalSteps(infos[1..])
  }

  /** The new scene has these entities under the local IDs from this one down, and all else is as it was. */
  ghost predicate PutBelow(scene: Scene, localID: EntityID, infos: seq<EntityInfo>, after: Scene) {
    && (forall id :: id in after <==> id in scene || localID - |infos| < id <= localID)
    && (forall id :: id in after ==>
            after[id] == if localID - |infos| < id <= localID then Entity(infos[localID - id].(ID := id), false)
                         else scene[id])
  }

  /** From any state, n new local entities get n IDs, one below the other, and are all there in the end. */
  lemma {:induction false} LocalsKeepApart(t: Types, w: World, infos: seq<EntityInfo>)
    requires t.Valid() && forall i :: 0 <= i < |infos| ==> infos[i].ID == 0 && t.Accepts(infos[i])
    ensures CanRun(t, w, LocalSteps(infos))
    ensures var after := Replication.Exec(t, w, LocalSteps(infos)).host;
            PutBelow(w.host.scene, w.host.localID, infos, after.scene)
            && after == w.host.(localID := w.host.localID - |infos|, scene := after.scene)
    decreases |infos|
  {
    if infos == [] {
    } else {
      var step := HostLocal(infos[0]);
      var next := Apply(t, w, step);
      StepClient(t, w, step, HOST);
      LocalPutInto(t, w.host, step);
      assert LocalSteps(infos)[0] == step && LocalSteps(infos)[1..] == LocalSteps(infos[1..]);
      LocalsKeepApart(t, next, infos[1..]);
      PutBelowOneMore(w.host.scene, w.host.localID, infos, next.host.scene,
          Replication.Exec(t, next, LocalSteps(infos[1..])).host.scene);
    }
  }

  lemma PutBelowOneMore(scene: Scene, localID: EntityID, infos: seq<EntityInfo>, next: Scene, after: Scene)
    requires infos != [] && PutInto(scene, localID, Entity(infos[0].(ID := localID), false), next)
    requires PutBelow(next, localID - 1, infos[1..], after)
    ensures PutBelow(scene, localID, infos, after)
  {
    forall id
      ensures id in after <==> id in scene || localID - |infos| < id <= localID
    {
      assert id in next.Keys <==> id in scene.Keys + {localID};
    }
  }
}
