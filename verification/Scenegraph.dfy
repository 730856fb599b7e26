/** The scenegraph of the host as the object it is: a map of entities, ID counters and a server to send
    through. Everything it broadcasts is logged, and handled at once by the host's own client. */
module ScenegraphClass {
  import opened Entities
  import opened SceneTree
  import opened Scenes

  class Scenegraph {
    const builders: set<Str>
    var entities: Scene
    var childTypes: ChildTypes
    var ID: EntityID
    var localID: EntityID
    var networkReady: bool
    var sent: seq<Message>
    var updated: seq<EntityID>

    function State(): Host
      reads this
    {
      Host(entities, ID, localID, networkReady)
    }

    ghost predicate Registered(types: Types)
      reads this
    {
      types.builders == builders && types.children == childTypes
    }

    predicate Valid()
      reads this
    {
      Keyed(entities) && ID > 0
    }

    constructor (builders: set<Str>)
      ensures Valid() && State() == Host(map[], 1, -1, false) && childTypes == map[] && sent == []
      ensures this.builders == builders
    {
      this.builders := builders;
      entities, childTypes := map[], map[];
      ID, localID, networkReady := 1, -1, false;
      sent, updated := [], [];
    }

    /** The children are kept if there are any and all their types are registered. Nothing stops a type from
        being registered below itself. */
    method RegisterEntityChildren(kind: Str, children: seq<Child>)
      modifies this`childTypes
      ensures childTypes == if children != [] && (forall i :: 0 <= i < |children| ==> children[i].kind in builders)
                            then old(childTypes)[kind := children] else old(childTypes) - {kind}
    {
      childTypes := childTypes[kind := children];
      var i := 0;
      while i < |children| && childTypes[kind] != []
        invariant 0 <= i <= |children|
        invariant kind in childTypes && childTypes - {kind} == old(childTypes) - {kind}
        invariant if forall j :: 0 <= j < i ==> children[j].kind in builders
                  then childTypes == old(childTypes)[kind := children]
                  else childTypes[kind] == []
      {
        if children[i].kind !in builders {
          childTypes := childTypes[kind := []];
        }
        i := i + 1;
      }
      if childTypes[kind] == [] {
        childTypes := childTypes - {kind};
      }
    }

    /** createEntity; null is returned for an info that names no type or none that is registered. */
    method CreateEntity(info: EntityInfo) returns (ok: bool)
      modifies this`entities, this`localID
      ensures ok == Creatable(builders, info.kind, info.name)
      ensures !ok ==> State() == old(State())
      ensures ok && info.ID != 0 ==> entities == Handle(old(entities), Creation(info)) && localID == old(localID)
      ensures ok && info.ID == 0 ==> State() == CreateLocal(old(State()), info)
    {
      if info.name == [] || info.kind == [] {
        return false;
      }
      if info.kind !in builders {
        return false;
      }
      var id := info.ID;
      if id == 0 {
        id := localID;
        localID := localID - 1;
      }
      entities := entities[id := Entity(info.(ID := id), false)];
      return true;
    }

    /** The handlers of a client; there is no entity to hand the state in a snapshot to if none could be
        created, and the source then follows a null pointer. */
    method OnClientPacket(m: Message) returns (followsNull: bool)
      modifies this`entities, this`localID
      ensures State() == Arrive(builders, old(State()), m)
      ensures followsNull <==> m.Snapshot? && !Creatable(builders, m.info.kind, m.info.name)
    {
      followsNull := false;
      match m {
        case Creation(info) => var _ := CreateEntity(info);
        case Snapshot(info) =>
          var ok := CreateEntity(info);
          followsNull := !ok;
        case Deletion(id) =>
          if id in entities {
            entities := entities[id := entities[id].(remove := true)];
          }
      }
    }

    method SendPacketToAllClients(m: Message)
      requires Sound(builders, m) && !m.Snapshot?
      modifies this`entities, this`localID, this`sent
      ensures entities == Handle(old(entities), m) && localID == old(localID) && sent == old(sent) + [m]
    {
      sent := sent + [m];
      SoundArrives(builders, State(), m);
      var _ := OnClientPacket(m);
    }

    /** The recursion ends if the types are ranked, and the rank covers this one. */
    method CreateNetworkedEntity(info: EntityInfo, ghost types: Types) returns (ghost infos: seq<EntityInfo>)
      requires Registered(types) && types.Valid() && types.Covers(info) && ID > 0
      modifies this`entities, this`localID, this`ID, this`sent
      ensures (infos, ID) == Create(types, old(ID), info)
      ensures entities == HandleAll(old(entities), Announced(networkReady, infos))
      ensures sent == old(sent) + Announced(networkReady, infos)
      ensures ID >= old(ID) && localID == old(localID)
      decreases types.Measure(info), 1
    {
      infos := [];
      if info.name == [] || info.kind == [] {
        return;
      }
      if info.kind !in builders {
        return;
      }
      var id := info.ID;
      if id == 0 {
        id := ID;
        ID := ID + 1;
      }
      assert types.Falls(info.kind);
      infos := CreateEach(if info.kind in childTypes then childTypes[info.kind] else [], info.ownerID, id, types,
                          types.rank[info.kind]);
      var created := info.(ID := id, ownerID := if info.ownerID == 0 then HOST else info.ownerID);
      AnnouncedJoins(old(entities), old(sent), networkReady, infos, [created]);
      if networkReady {
        assert Announced(networkReady, [created]) == [Creation(created)];
        HandleOne(entities, Creation(created));
        SendPacketToAllClients(Creation(created));
      }
      infos := infos + [created];
    }

    /** Since the scene and the log were these, these infos have been broadcast. */
    ghost predicate Told(scene: Scene, log: seq<Message>, infos: seq<EntityInfo>)
      reads this
    {
      && entities == HandleAll(scene, Announced(networkReady, infos))
      && sent == log + Announced(networkReady, infos)
    }

    /** One iteration of the loop over the child types */
    method CreateChild(child: Child, ownerID: ClientID, parent: EntityID, ghost types: Types, ghost scene: Scene,
        ghost log: seq<Message>, ghost infos: seq<EntityInfo>) returns (ghost more: seq<EntityInfo>)
      requires Registered(types) && types.Valid() && types.Covers(ChildInfo(child, ownerID, parent)) && ID > 0
      requires Told(scene, log, infos)
      modifies this`entities, this`localID, this`ID, this`sent
      ensures (more, ID) == Create(types, old(ID), ChildInfo(child, ownerID, parent))
      ensures Told(scene, log, infos + more)
      ensures ID >= old(ID) && localID == old(localID)
      decreases types.Measure(ChildInfo(child, ownerID, parent)), 2
    {
      more := CreateNetworkedEntity(EntityInfo(child.kind, child.name, 0, ownerID, parent), types);
      AnnouncedJoins(scene, log, networkReady, infos, more);
    }

    method CreateEach(children: seq<Child>, ownerID: ClientID, parent: EntityID, ghost types: Types, ghost bound: nat)
        returns (ghost infos: seq<EntityInfo>)
      requires Registered(types) && types.Valid() && types.Bounded(children, bound) && ID > 0
      modifies this`entities, this`localID, this`ID, this`sent
      ensures (infos, ID) == CreateChildren(types, children, old(ID), ownerID, parent, bound)
      ensures Told(old(entities), old(sent), infos)
      ensures ID >= old(ID) && localID == old(localID)
      decreases bound, 3
    {
      ghost var all := CreateChildren(types, children, ID, ownerID, parent, bound);
      infos := [];
      assert children[0..] == children && [] + all.0 == all.0;
      for i := 0 to |children|
        invariant ID >= old(ID) && localID == old(localID) && Told(old(entities), old(sent), infos)
        invariant all.0 == infos + CreateChildren(types, children[i..], ID, ownerID, parent, bound).0
        invariant all.1 == CreateChildren(types, children[i..], ID, ownerID, parent, bound).1
      {
        ghost var next := ID;
        ghost var more := CreateChild(children[i], ownerID, parent, types, old(entities), old(sent), infos);
        EachStep(types, children, i, next, ownerID, parent, bound, infos, more, ID);
        infos := infos + more;
      }
      assert infos + [] == infos;
    }

    lemma EachStep(t: Types, children: seq<Child>, i: nat, next: EntityID, ownerID: ClientID, parent: EntityID,
        bound: nat,
        infos: seq<EntityInfo>, more: seq<EntityInfo>, mid: EntityID)
      requires t.Valid() && t.Bounded(children, bound)
      requires i < |children|
      requires t.Covers(ChildInfo(children[i], ownerID, parent))
               && Create(t, next, ChildInfo(children[i], ownerID, parent)) == (more, mid)
      ensures var rest := CreateChildren(t, children[i..], next, ownerID, parent, bound);
              var tail := CreateChildren(t, children[i + 1..], mid, ownerID, parent, bound);
              (infos + rest.0, rest.1) == ((infos + more) + tail.0, tail.1)
    {
      assert children[i..][1..] == children[i + 1..];
      CreateChildrenStep(t, children[i..], next, ownerID, parent, bound, more, mid);
      var tail := CreateChildren(t, children[i + 1..], mid, ownerID, parent, bound);
      assert infos + (more + tail.0) == (infos + more) + tail.0;
    }

    method DeleteEntity(id: EntityID)
      requires Valid() && id in entities
      modifies this`entities, this`localID, this`sent
      ensures State() == Delete(old(State()), id).host && sent == old(sent) + Delete(old(State()), id).sent
      ensures Valid()
    {
      HandleOne(entities, Deletion(id));
      if entities[id].info.ID < 0 {
        entities := entities[id := entities[id].(remove := true)];
      } else if networkReady {
        SendPacketToAllClients(Deletion(id));
      }
    }

    /** In the middle of an update of h, these entities done */
    ghost predicate Midway(h: Host, log: seq<Message>, ups: seq<EntityID>, done: seq<EntityID>)
      reads this
    {
      && State() == h.(scene := entities)
      && Swept(h, entities, done)
      && sent == log + OrphanDeletions(h, done)
      && updated == ups + Updated(h, done)
    }

    /** One iteration of update; the entity callbacks do nothing but be counted in `updated`. */
    method Visit(id: EntityID, ghost h: Host, ghost log: seq<Message>, ghost ups: seq<EntityID>,
        ghost done: seq<EntityID>)
      requires Valid() && id in entities && Midway(h, log, ups, done)
      modifies this`entities, this`localID, this`sent, this`updated
      ensures Valid() && Midway(h, log, ups, done + [id])
    {
      SweptStep(h, entities, done, id, log, ups);
      DeleteMarks(State(), id);
      var ent := entities[id];
      if ent.info.parentID == 0 || ent.info.parentID in entities {
        updated := updated + [id];
      } else {
        DeleteEntity(ent.info.ID);
      }
    }

    method Update()
      requires Valid()
      modifies this`entities, this`localID, this`sent, this`updated
      ensures State() == Scenes.Update(old(State())).host && sent == old(sent) + Scenes.Update(old(State())).sent
      ensures updated == old(updated) + Updated(old(State()), Ascending(old(entities.Keys)))
      ensures Valid()
    {
      var keys := Ascending(entities.Keys);
      ghost var h := State();
      for i := 0 to |keys|
        invariant Valid() && Midway(h, old(sent), old(updated), keys[..i])
      {
        Visit(keys[i], h, old(sent), old(updated), keys[..i]);
        TakeNext(keys, i);
      }
      assert keys[..|keys|] == keys;
      SweptAll(h, entities);
      entities := Erased(entities);
    }

    /** The packets sent to the client that has connected */
    method SendAllNetworkedEntitiesToClient() returns (ms: seq<Message>)
      ensures ms == if networkReady then SnapshotOf(entities) else []
    {
      ms := [];
      if networkReady {
        var keys := Ascending(entities.Keys);
        assert keys[..|keys|] == keys;
        for i := |keys| downto 0
          invariant ms + Snapshots(entities, keys[..i]) == SnapshotOf(entities)
        {
          SnapshotsStep(entities, keys, i, ms);
          ms := ms + [Snapshot(entities[keys[i]].info)];
        }
      }
    }

    /** The server's handler of ENTITY_CREATION */
    method OnCreationRequest(info: EntityInfo, sender: ClientID, ghost types: Types)
      requires Valid() && networkReady && Registered(types) && types.Valid() && types.Covers(info)
      modifies this`entities, this`localID, this`ID, this`sent
      ensures var r := Grant(types, old(State()), ForCreation(info), sender);
              State() == r.host && sent == old(sent) + r.sent
      ensures Valid()
    {
      ghost var infos := CreateNetworkedEntity(info.(ownerID := sender), types);
      HandleAllKeyed(old(entities), Creations(infos));
    }

    /** The server's handler of CONNECTED: what is sent to the client */
    method OnConnected() returns (reply: seq<Message>)
      requires networkReady
      ensures reply == SnapshotOf(entities)
    {
      reply := SendAllNetworkedEntitiesToClient();
    }

    /** The server's handler of ENTITY_DELETION */
    method OnDeletionRequest(id: EntityID, sender: ClientID, ghost types: Types)
      requires Valid() && networkReady && types.Valid()
      modifies this`entities, this`localID, this`sent
      ensures var r := Grant(types, old(State()), ForDeletion(id), sender);
              State() == r.host && sent == old(sent) + r.sent
      ensures Valid()
    {
      if id in entities {
        if entities[id].info.ownerID == sender {
          HandleOne(entities, Deletion(id));
          HandleAllKeyed(entities, [Deletion(id)]);
          SendPacketToAllClients(Deletion(id));
        }
      }
    }
  }
}
