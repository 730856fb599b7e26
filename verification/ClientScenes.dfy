/** What a client's own steps do to its scene, and the whole of its networked scene once it has caught up. */
module ClientScenes {
  import opened Entities
  import opened SceneTree
  import opened Scenes
  import opened Replication

  // ----- single steps

  /** Nothing but this client has changed. */
  ghost predicate OnlyClient(w: World, c: ClientID, after: World) {
    && after.host == w.host && c in w.clients && after.clients.Keys == w.clients.Keys
    && forall other :: other in w.clients && other != c ==> after.clients[other] == w.clients[other]
  }

  /** Entities other than this one are as they were. */
  ghost predicate OnlyEntity(scene: Scene, id: EntityID, after: Scene) {
    forall other :: other != id ==> (other in after <==> other in scene)
                                    && (other in scene ==> after[other] == scene[other])
  }

  /** A local entity whose parent is missing */
  predicate LocalOrphan(scene: Scene, id: EntityID)
    requires id in scene
  {
    id < 0 && scene[id].info.parentID != 0 && scene[id].info.parentID !in scene
  }

  /** A client's update erases what is marked and its local orphans, and changes nothing else. */
  lemma ClientUpdateExact(t: Types, w: World, c: ClientID)
    requires t.Valid() && c in w.clients
    ensures var after := Apply(t, w, ClientUpdate(c));
            && OnlyClient(w, c, after)
            && var k, k' := w.clients[c], after.clients[c];
               && k'.inflight == k.inflight && k'.synced == k.synced
               && (forall id :: id in k'.scene
                       <==> id in k.scene && !k.scene[id].remove && !LocalOrphan(k.scene, id))
               && (forall id :: id in k'.scene ==> k'.scene[id] == k.scene[id])
  {
    var scene := w.clients[c].scene;
    assert Apply(t, w, ClientUpdate(c)).clients[c].scene == ClientScene(scene);
  }

  /** The first message on its way arrives: a creation or a snapshot puts its entity there, unmarked; a deletion marks
      the entity if it is there; nothing else changes. */
  lemma DeliverExact(t: Types, w: World, c: ClientID)
    requires t.Valid() && Enabled(t, w, Deliver(c))
    ensures var after := Apply(t, w, Deliver(c));
            && OnlyClient(w, c, after)
            && var k, k' := w.clients[c], after.clients[c];
               var m := k.inflight[0];
               && k.inflight == [m] + k'.inflight && k'.synced == k.synced
               && OnlyEntity(k.scene, if m.Deletion? then m.id else m.info.ID, k'.scene)
               && (!m.Deletion? ==> m.info.ID in k'.scene && k'.scene[m.info.ID] == Entity(m.info, false))
               && (m.Deletion? ==> (m.id in k'.scene <==> m.id in k.scene))
               && (m.Deletion? && m.id in k.scene ==> k'.scene[m.id] == Entity(k.scene[m.id].info, true))
  {
  }

  /** A client that joins has its scene and nothing on its way; one that leaves is gone, and nobody else notices. */
  lemma JoinLeaveExact(t: Types, w: World, c: ClientID, scene: Scene)
    requires t.Valid() && c > HOST
    ensures c !in w.clients ==>
              && Apply(t, w, Join(c, scene)).clients == w.clients[c := Client(scene, [], false)]
              && Apply(t, w, Join(c, scene)).host == w.host
    ensures c in w.clients ==>
              && Apply(t, w, Leave(c)).clients.Keys == w.clients.Keys - {c}
              && (forall other :: other in w.clients && other != c
                      ==> Apply(t, w, Leave(c)).clients[other] == w.clients[other])
              && Apply(t, w, Leave(c)).host == w.host
  {
  }

  /** Whatever the host does, every client keeps its scene, and what is broadcast goes behind what is on its way. */
  lemma HostStepReaches(t: Types, w: World, step: Step, c: ClientID)
    requires t.Valid() && Enabled(t, w, step) && c in w.clients
    requires step.HostLocal? || step.HostMark? || step.HostCreate? || step.HostDelete? || step.Ask? || step.HostUpdate?
    ensures var after := Apply(t, w, step);
            && after.clients.Keys == w.clients.Keys
            && after.clients[c].scene == w.clients[c].scene && after.clients[c].synced == w.clients[c].synced
            && after.clients[c].inflight == w.clients[c].inflight + Sent(t, w, step)
  {
  }

  /** An entity that a client marks is gone from its scene after its next update; only local orphans, and what was
      marked before, go with it. */
  lemma {:induction false} MarkErases(t: Types, w: World, c: ClientID, id: EntityID)
    requires t.Valid() && Enabled(t, w, ClientMark(c, id))
    ensures CanRun(t, w, [ClientMark(c, id), ClientUpdate(c)])
    ensures var after := Exec(t, w, [ClientMark(c, id), ClientUpdate(c)]);
            && OnlyClient(w, c, after)
            && var scene, scene' := w.clients[c].scene, after.clients[c].scene;
               && id !in scene'
               && forall other :: other in scene && other != id && !scene[other].remove
                                  && !LocalOrphan(scene, other)
                      ==> other in scene' && scene'[other] == scene[other]
  {
    var marked := Apply(t, w, ClientMark(c, id));
    ClientUpdateExact(t, marked, c);
    TwoSteps(t, w, ClientMark(c, id), ClientUpdate(c));
    var scene := w.clients[c].scene;
    assert marked.clients[c].scene == Marked(scene, id);
  }

  // ----- catching up

  /** All that is on its way arrives, and the client updates. */
  function CatchUp(c: ClientID, n: nat): seq<Step> {
    if n == 0 then [ClientUpdate(c)] else [Deliver(c)] + CatchUp(c, n - 1)
  }

  lemma ErasedLive(scene: Scene)
    ensures Networked(ClientScene(scene)) == Live(scene)
  {
  }

  lemma {:induction false} UpdateOnly(t: Types, w: World, c: ClientID)
    requires t.Valid() && c in w.clients
    ensures CanRun(t, w, [ClientUpdate(c)]) && Exec(t, w, [ClientUpdate(c)]) == Apply(t, w, ClientUpdate(c))
  {
    assert [ClientUpdate(c)][1..] == [];
  }

  /** From any state, a client that catches up has just the networked entities it was bound to have, and none marked. */
  lemma {:induction false} CatchesUp(t: Types, w: World, c: ClientID)
    requires t.Valid() && c in w.clients
    ensures CanRun(t, w, CatchUp(c, |w.clients[c].inflight|))
    ensures var after := Exec(t, w, CatchUp(c, |w.clients[c].inflight|));
            && OnlyClient(w, c, after) && after.clients[c].inflight == []
            && after.clients[c].synced == w.clients[c].synced
            && Networked(after.clients[c].scene) == Live(after.clients[c].scene) == w.View(c)
    decreases |w.clients[c].inflight|
  {
    var k := w.clients[c];
    if k.inflight == [] {
      UpdateOnly(t, w, c);
      ClientUpdateExact(t, w, c);
      ErasedLive(k.scene);
      assert Live(ClientScene(k.scene)) == Live(k.scene);
    } else {
      var next := Apply(t, w, Deliver(c));
      DeliverExact(t, w, c);
      StepView(t, w, Deliver(c), c);
      CatchesUp(t, next, c);
      var steps := CatchUp(c, |k.inflight|);
      assert steps[0] == Deliver(c) && steps[1..] == CatchUp(c, |next.clients[c].inflight|);
    }
  }

  /** Main theorem: after every run that was clean for a client whose CONNECTED has been handled, once it has caught up
      the networked part of its whole scene is exactly the host's live one: what the host has erased or marked is gone
      from it, and not just out of sight. */
  lemma {:induction false} CleanRunsCatchUp(t: Types, steps: seq<Step>, c: ClientID)
    requires t.Valid() && CanRun(t, Init(), steps) && CleanRun(t, Init(), steps, c)
    requires Exec(t, Init(), steps).Synced(c)
    ensures var w := Exec(t, Init(), steps);
            var catchUp := CatchUp(c, |w.clients[c].inflight|);
            && CanRun(t, w, catchUp)
            && var after := Exec(t, w, catchUp);
               && after.host == w.host && c in after.clients && after.clients[c].inflight == []
               && Networked(after.clients[c].scene) == Live(w.host.scene)
  {
    LateJoinersConverge(t, steps, c);
    CatchesUp(t, Exec(t, Init(), steps), c);
  }

  /** From any state: a client that catches up has exactly the host's live networked entities in its scene if and only
      if it converges. */
  lemma {:induction false} CaughtUpExact(t: Types, w: World, c: ClientID)
    requires t.Valid() && c in w.clients
    ensures CanRun(t, w, CatchUp(c, |w.clients[c].inflight|))
    ensures var after := Exec(t, w, CatchUp(c, |w.clients[c].inflight|));
            && c in after.clients
            && (Networked(after.clients[c].scene) == Live(after.host.scene) <==> Converges(w, c))
  {
    CatchesUp(t, w, c);
  }
}
