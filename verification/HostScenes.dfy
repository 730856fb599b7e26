/** What single operations do to a scene, told by what is in it before and after. */
module HostScenes {
  import opened Entities
  import opened SceneTree
  import opened Scenes
  import opened Replication
  import opened History
  import opened Ownership
  import opened LocalIDs

  // ----- what is not created

  /** No name, no type, or a type that nobody has registered */
  predicate Invalid(builders: set<Str>, info: EntityInfo) {
    info.name == [] || info.kind == [] || info.kind !in builders
  }

  /** What is not valid leaves the host just as it was, its next ID included, and nobody hears of it; what is valid is
      announced. */
  lemma {:induction false} RefusedExact(t: Types, h: Host, info: EntityInfo)
    requires t.Valid() && t.Covers(info)
    ensures Invalid(t.builders, info) ==> CreateNetworked(t, h, info) == Result(h, [])
    ensures CreateNetworked(t, h, info).sent != [] <==> h.networkReady && !Invalid(t.builders, info)
  {
    if t.Accepts(info) {
      var tree := CreateBuilds(t, h.nextID, info);
      assert |PostOrder(tree)| == Size(tree) >= 1;
    }
  }

  /** Children without a name, or of a type nobody has registered, use up no ID and are not announced. */
  lemma {:induction false} RefusedChild(t: Types, children: seq<Child>, next: EntityID, ownerID: ClientID,
      parent: EntityID, bound: nat)
    requires t.Valid() && t.Bounded(children, bound) && children != []
    requires Invalid(t.builders, ChildInfo(children[0], ownerID, parent))
    ensures CreateChildren(t, children, next, ownerID, parent, bound)
            == CreateChildren(t, children[1..], next, ownerID, parent, bound)
  {
    var rest := CreateChildren(t, children[1..], next, ownerID, parent, bound).0;
    assert [] + rest == rest;
  }

  /** All entities of a tree belong to the one named, or to the host's own client, whose ID is 1. */
  lemma OwnerNamed(t: Types, h: Host, info: EntityInfo, i: nat)
    requires t.Valid() && t.Covers(info) && i < |CreateNetworked(t, h, info).sent|
    ensures var m := CreateNetworked(t, h, info).sent[i];
            m.Creation? && m.info.ownerID == if info.ownerID == 0 then 1 else info.ownerID
  {
    CreateOwned(t, h.nextID, info);
  }

  // ----- before networking is enabled

  /** Nobody is told anything, and no networked entity comes, goes or changes, but the marked ones are erased. */
  lemma {:induction false} NotReadySilent(t: Types, h: Host, step: Step, id: EntityID)
    requires t.Valid() && HostEnabled(t, h, step) && Keyed(h.scene) && !h.networkReady && id >= 0
    requires !step.HostMark? && !(step.HostLocal? && step.info.ID == id && id != 0) && h.localID < 0
    ensures var r := HostStep(t, h, step);
            && r.sent == [] && !r.host.networkReady
            && (id in r.host.scene <==> id in h.scene && !(step.HostUpdate? && h.scene[id].remove))
            && (id in r.host.scene ==> r.host.scene[id] == h.scene[id])
  {
    match step
    case HostUpdate => NoDeletions(h, Ascending(h.scene.Keys));
    case HostCreate(info) => assert HostStep(t, h, step).host.scene == h.scene;
    case Ask(c, request) => assert HostStep(t, h, step).host.scene == h.scene;
    case _ =>
  }

  lemma {:induction false} NoDeletions(h: Host, ids: seq<EntityID>)
    requires !h.networkReady
    ensures OrphanDeletions(h, ids) == []
    decreases |ids|
  {
    if ids == [] {
    } else {
      NoDeletions(h, ids[..|ids| - 1]);
    }
  }

  // ----- messages that arrive

  /** A creation or snapshot that is valid puts just its entity into the scene, under its ID or else the next local one,
      and one that is not changes nothing; a deletion marks its entity if that is there. */
  lemma ArriveExact(builders: set<Str>, h: Host, m: Message)
    ensures var after := Arrive(builders, h, m);
            && after.nextID == h.nextID && after.networkReady == h.networkReady
            && (m.Deletion? ==>
                  && after.localID == h.localID && after.scene.Keys == h.scene.Keys
                  && forall id :: id in h.scene ==>
                       after.scene[id] == Entity(h.scene[id].info, h.scene[id].remove || id == m.id))
            && (!m.Deletion? && Invalid(builders, m.info) ==> after == h)
            && (!m.Deletion? && !Invalid(builders, m.info) ==>
                  var id := if m.info.ID == 0 then h.localID else m.info.ID;
                  && PutInto(h.scene, id, Entity(m.info.(ID := id), false), after.scene)
                  && after.localID == h.localID - if m.info.ID == 0 then 1 else 0)
  {
  }

  // ----- deletions

  /** Deletions of some of these, in ascending order of their IDs */
  predicate AscendingDeletions(ms: seq<Message>, ids: seq<EntityID>) {
    && (forall i :: 0 <= i < |ms| ==> ms[i].Deletion? && ms[i].id in ids)
    && forall i, j :: 0 <= i < j < |ms| ==> ms[i].id < ms[j].id
  }

  /** The deletions that an update broadcasts are in the order of their IDs. */
  lemma DeletionsAscend(h: Host)
    ensures AscendingDeletions(Update(h).sent, Ascending(h.scene.Keys))
  {
    DeletionsInOrder(h, Ascending(h.scene.Keys));
  }

  lemma {:induction false} DeletionsInOrder(h: Host, ids: seq<EntityID>)
    requires forall i, j :: 0 <= i < j < |ids| ==> ids[i] < ids[j]
    ensures AscendingDeletions(OrphanDeletions(h, ids), ids)
    decreases |ids|
  {
    if ids == [] {
    } else {
      var init := ids[..|ids| - 1];
      var last := if Doomed(h, ids[|ids| - 1]) && ids[|ids| - 1] >= 0 then [Deletion(ids[|ids| - 1])] else [];
      DeletionsInOrder(h, init);
      OneMoreDeletion(OrphanDeletions(h, init), init, ids, last);
    }
  }

  lemma {:induction false} OneMoreDeletion(ms: seq<Message>, init: seq<EntityID>, ids: seq<EntityID>,
      last: seq<Message>)
    requires ids != [] && init == ids[..|ids| - 1] && forall i, j :: 0 <= i < j < |ids| ==> ids[i] < ids[j]
    requires AscendingDeletions(ms, init) && (last == [] || last == [Deletion(ids[|ids| - 1])])
    ensures AscendingDeletions(ms + last, ids)
  {
    forall i | 0 <= i < |ms|
      ensures ms[i].id in ids && ms[i].id < ids[|ids| - 1]
    {
      var k :| 0 <= k < |init| && init[k] == ms[i].id;
      assert ids[k] == ms[i].id;
    }
  }

  /** What is deleted, or marks itself, is gone after the next update, and all else is as it would be without that. */
  lemma {:induction false} DeleteErases(h: Host, id: EntityID)
    requires id in h.scene && Keyed(h.scene)
    ensures id < 0 || h.networkReady ==> Next(Delete(h, id).host) == Next(h).(scene := Next(h).scene - {id})
    ensures id >= 0 && !h.networkReady ==> Delete(h, id) == Result(h, [])
    ensures Next(h.(scene := Marked(h.scene, id))) == Next(h).(scene := Next(h).scene - {id})
  {
    DeleteMarks(h, id);
    var marked := h.(scene := Marked(h.scene, id));
    assert forall other :: other in h.scene ==> Doomed(marked, other) == Doomed(h, other);
    assert Survivors(marked) == Survivors(h) - {id};
  }

  /** A deletion asked for by the owner has the same effect as the host's own, and one asked for by anybody else
      none. */
  lemma {:induction false} RequestErases(t: Types, h: Host, id: EntityID, sender: ClientID)
    requires t.Valid() && Keyed(h.scene) && h.networkReady
    ensures var r := Grant(t, h, ForDeletion(id), sender);
            if id in h.scene && h.scene[id].info.ownerID == sender
            then r.sent == [Deletion(id)] && Next(r.host) == Next(h).(scene := Next(h).scene - {id})
            else r == Result(h, [])
  {
    HandleOne(h.scene, Deletion(id));
    if id in h.scene {
      DeleteErases(h, id);
    }
  }
}
