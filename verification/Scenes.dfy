/** Scenes, the messages that change them, and what the host's operations do, as functions on values. */
module Scenes {
  import opened Entities
  import opened SceneTree

  datatype Entity = Entity(info: EntityInfo, remove: bool)

  /** The entities map; local entities have negative IDs. */
  type Scene = map<EntityID, Entity>

  datatype Message = Creation(info: EntityInfo) | Snapshot(info: EntityInfo) | Deletion(id: EntityID)

  // ----- the client's handlers

  function Handle(scene: Scene, m: Message): Scene {
    match m
    case Creation(info) => scene[info.ID := Entity(info, false)]
    case Snapshot(info) => scene[info.ID := Entity(info, false)]
    case Deletion(id) => if id in scene then Marked(scene, id) else scene
  }

  function Marked(scene: Scene, id: EntityID): Scene
    requires id in scene
  {
    scene[id := scene[id].(remove := true)]
  }

  /** Keys are the IDs of their entities. */
  predicate Keyed(scene: Scene) {
    forall id :: id in scene ==> scene[id].info.ID == id
  }

  /** What a client's handler really does with any message: what it cannot create it ignores, and what has no ID
      becomes a local entity. */
  function Arrive(builders: set<Str>, h: Host, m: Message): Host {
    if m.Deletion? then h.(scene := Handle(h.scene, m))
    else if !Creatable(builders, m.info.kind, m.info.name) then h
    else if m.info.ID == 0 then CreateLocal(h, m.info)
    else h.(scene := Handle(h.scene, m))
  }

  /** A message as a host sends it */
  predicate Sound(builders: set<Str>, m: Message) {
    m.Deletion? || (Creatable(builders, m.info.kind, m.info.name) && m.info.ID != 0)
  }

  lemma SoundArrives(builders: set<Str>, h: Host, m: Message)
    requires Sound(builders, m)
    ensures Arrive(builders, h, m) == h.(scene := Handle(h.scene, m))
  {
  }

  function HandleAll(scene: Scene, ms: seq<Message>): Scene
    decreases |ms|
  {
    if ms == [] then scene else HandleAll(Handle(scene, ms[0]), ms[1..])
  }

  lemma {:induction false} HandleAllKeyed(scene: Scene, ms: seq<Message>)
    requires Keyed(scene)
    ensures Keyed(HandleAll(scene, ms))
    decreases |ms|
  {
    if ms == [] {
    } else {
      HandleAllKeyed(Handle(scene, ms[0]), ms[1..]);
    }
  }

  lemma HandleOne(scene: Scene, m: Message)
    ensures HandleAll(scene, [m]) == Handle(scene, m)
  {
    assert [m][1..] == [];
  }

  lemma {:induction false} HandleAllSplits(scene: Scene, a: seq<Message>, b: seq<Message>)
    ensures HandleAll(scene, a + b) == HandleAll(HandleAll(scene, a), b)
    decreases |a|
  {
    if a == [] {
      assert a + b == b;
    } else {
      assert (a + b)[1..] == a[1..] + b;
      HandleAllSplits(Handle(scene, a[0]), a[1..], b);
    }
  }

  // ----- networked entities not marked for removal

  type Infos = map<EntityID, EntityInfo>

  function Live(scene: Scene): Infos {
    map id | id in scene && id > 0 && !scene[id].remove :: scene[id].info
  }

  function HandleLive(live: Infos, m: Message): Infos {
    match m
    case Creation(info) => if info.ID > 0 then live[info.ID := info] else live
    case Snapshot(info) => if info.ID > 0 then live[info.ID := info] else live
    case Deletion(id) => live - {id}
  }

  function HandleAllLive(live: Infos, ms: seq<Message>): Infos
    decreases |ms|
  {
    if ms == [] then live else HandleAllLive(HandleLive(live, ms[0]), ms[1..])
  }

  lemma LiveHandles(scene: Scene, m: Message)
    ensures Live(Handle(scene, m)) == HandleLive(Live(scene), m)
  {
  }

  lemma {:induction false} LiveHandlesAll(scene: Scene, ms: seq<Message>)
    ensures Live(HandleAll(scene, ms)) == HandleAllLive(Live(scene), ms)
    decreases |ms|
  {
    if ms == [] {
    } else {
      LiveHandles(scene, ms[0]);
      LiveHandlesAll(Handle(scene, ms[0]), ms[1..]);
    }
  }

  lemma {:induction false} HandleAllLiveSplits(live: Infos, a: seq<Message>, b: seq<Message>)
    ensures HandleAllLive(live, a + b) == HandleAllLive(HandleAllLive(live, a), b)
    decreases |a|
  {
    if a == [] {
      assert a + b == b;
    } else {
      assert (a + b)[1..] == a[1..] + b;
      HandleAllLiveSplits(HandleLive(live, a[0]), a[1..], b);
    }
  }

  // ----- the order of a std::map

  predicate IsMin(m: EntityID, ids: set<EntityID>) {
    m in ids && forall x :: x in ids ==> m <= x
  }

  lemma SomeID(ids: set<EntityID>)
    ensures ids == {} || exists x :: x in ids
  {
    if forall x :: x !in ids {
      assert ids == {};
    }
  }

  lemma {:induction false} MinExists(ids: set<EntityID>)
    requires ids != {}
    ensures exists m :: IsMin(m, ids)
    decreases |ids|
  {
    SomeID(ids);
    var x :| x in ids;
    if ids == {x} {
      assert IsMin(x, ids);
    } else {
      var rest := ids - {x};
      assert ids == rest + {x};
      assert rest != {};
      MinExists(rest);
      var m :| IsMin(m, rest);
      assert IsMin(if x < m then x else m, ids);
    }
  }

  function Least(ids: set<EntityID>): (m: EntityID)
    requires ids != {}
    ensures IsMin(m, ids)
  {
    MinExists(ids);
    var m :| IsMin(m, ids);
    m
  }

  /** Every ID once, in ascending order */
  predicate IsAscending(r: seq<EntityID>, ids: set<EntityID>) {
    && |r| == |ids|
    && (forall i :: 0 <= i < |r| ==> r[i] in ids)
    && (forall x :: x in ids ==> x in r)
    && (forall i, j :: 0 <= i < j < |r| ==> r[i] < r[j])
  }

  function Ascending(ids: set<EntityID>): (r: seq<EntityID>)
    ensures IsAscending(r, ids)
    decreases |ids|
  {
    if ids == {} then []
    else
      var m := Least(ids);
      var rest := Ascending(ids - {m});
      AscendingSteps(m, rest, ids);
      [m] + rest
  }

  lemma AscendingSteps(m: EntityID, rest: seq<EntityID>, ids: set<EntityID>)
    requires IsMin(m, ids) && IsAscending(rest, ids - {m})
    ensures IsAscending([m] + rest, ids)
  {
    forall i | 0 <= i < |rest|
      ensures rest[i] in ids && m < rest[i]
    {
      assert rest[i] in ids - {m};
    }
    forall x | x in ids
      ensures x in [m] + rest
    {
      if x != m {
        assert x in ids - {m};
      }
    }
  }

  // ----- the host

  /** The host's scenegraph: its scene, its two ID counters, and whether networking has been enabled */
  datatype Host = Host(scene: Scene, nextID: EntityID, localID: EntityID, networkReady: bool)

  function Creations(infos: seq<EntityInfo>): (ms: seq<Message>)
    ensures |ms| == |infos| && forall i :: 0 <= i < |infos| ==> ms[i] == Creation(infos[i])
  {
    seq(|infos|, i requires 0 <= i < |infos| => Creation(infos[i]))
  }

  /** What is broadcast of these creations: nothing until networking has been enabled */
  function Announced(ready: bool, infos: seq<EntityInfo>): seq<Message> {
    if ready then Creations(infos) else []
  }

  lemma AnnouncedJoins(scene: Scene, log: seq<Message>, ready: bool, a: seq<EntityInfo>, b: seq<EntityInfo>)
    ensures log + Announced(ready, a + b) == (log + Announced(ready, a)) + Announced(ready, b)
    ensures HandleAll(scene, Announced(ready, a + b))
            == HandleAll(HandleAll(scene, Announced(ready, a)), Announced(ready, b))
  {
    assert Creations(a + b) == Creations(a) + Creations(b);
    HandleAllSplits(scene, Announced(ready, a), Announced(ready, b));
  }

  /** An operation of the host: its new state, and what it broadcasts to every connected client. The host's
      own client handles each broadcast before the next step. */
  datatype Result = Result(host: Host, sent: seq<Message>)

  function Broadcast(h: Host, ms: seq<Message>): Result {
    if h.networkReady then Result(h.(scene := HandleAll(h.scene, ms)), ms) else Result(h, [])
  }

  /** createNetworkedEntity */
  function CreateNetworked(t: Types, h: Host, info: EntityInfo): Result
    requires t.Valid() && t.Covers(info)
  {
    var (infos, next) := Create(t, h.nextID, info);
    Broadcast(h.(nextID := next), Creations(infos))
  }

  /** deleteEntity of an entity that exists */
  function Delete(h: Host, id: EntityID): Result
    requires id in h.scene
  {
    if h.scene[id].info.ID < 0 then Result(h.(scene := Marked(h.scene, id)), []) else Broadcast(h, [Deletion(id)])
  }

  /** The parent is neither none nor there. */
  predicate Orphan(scene: Scene, id: EntityID) {
    id in scene && scene[id].info.parentID != 0 && scene[id].info.parentID !in scene
  }

  /** An orphan that update gets rid of: deleting a networked one needs the network. */
  predicate Doomed(h: Host, id: EntityID) {
    Orphan(h.scene, id) && (id < 0 || h.networkReady)
  }

  /** The deletions broadcast for the orphans among these entities */
  function OrphanDeletions(h: Host, ids: seq<EntityID>): seq<Message> {
    if ids == [] then []
    else
      var id := ids[|ids| - 1];
      OrphanDeletions(h, ids[..|ids| - 1]) + if Doomed(h, id) && id >= 0 then [Deletion(id)] else []
  }

  /** The entities among these that are updated */
  function Updated(h: Host, ids: seq<EntityID>): seq<EntityID> {
    if ids == [] then []
    else
      var id := ids[|ids| - 1];
      Updated(h, ids[..|ids| - 1]) + if Orphan(h.scene, id) then [] else [id]
  }

  /** update, with entity callbacks that do nothing: whoever is marked or an orphan goes. */
  function Update(h: Host): Result {
    Result(Next(h), OrphanDeletions(h, Ascending(h.scene.Keys)))
  }

  /** The host after an update */
  function Next(h: Host): Host {
    h.(scene := Survivors(h))
  }

  function Survivors(h: Host): Scene {
    map id | id in h.scene && !h.scene[id].remove && !Doomed(h, id) :: h.scene[id]
  }

  lemma DeleteMarks(h: Host, id: EntityID)
    requires id in h.scene && h.scene[id].info.ID == id
    ensures Delete(h, id).host == if id < 0 || h.networkReady then h.(scene := Marked(h.scene, id)) else h
    ensures Delete(h, id).sent == if id >= 0 && h.networkReady then [Deletion(id)] else []
  {
    HandleOne(h.scene, Deletion(id));
  }

  lemma TakeNext(ids: seq<EntityID>, i: nat)
    requires i < |ids|
    ensures ids[..i] + [ids[i]] == ids[..i + 1]
  {
  }

  /** The scene in the middle of an update, these entities done */
  predicate Swept(h: Host, scene: Scene, done: seq<EntityID>) {
    && scene.Keys == h.scene.Keys
    && forall id :: id in h.scene
        ==> scene[id] == h.scene[id].(remove := h.scene[id].remove || (id in done && Doomed(h, id)))
  }

  lemma SweptStep(h: Host, scene: Scene, done: seq<EntityID>, id: EntityID, log: seq<Message>, updated: seq<EntityID>)
    requires Swept(h, scene, done) && id in h.scene
    ensures Orphan(scene, id) == Orphan(h.scene, id) && Doomed(h.(scene := scene), id) == Doomed(h, id)
    ensures Swept(h, if Doomed(h, id) then Marked(scene, id) else scene, done + [id])
    ensures log + OrphanDeletions(h, done + [id])
         == (log + OrphanDeletions(h, done)) + if Doomed(h, id) && id >= 0 then [Deletion(id)] else []
    ensures updated + Updated(h, done + [id]) == (updated + Updated(h, done)) + if Orphan(h.scene, id) then [] else [id]
  {
    assert (done + [id])[..|done|] == done;
  }

  function Erased(scene: Scene): Scene {
    map id | id in scene && !scene[id].remove :: scene[id]
  }

  lemma SweptAll(h: Host, scene: Scene)
    requires Swept(h, scene, Ascending(h.scene.Keys))
    ensures h.(scene := Erased(scene)) == Update(h).host
    ensures Keyed(scene) ==> Keyed(Erased(scene))
  {
    forall id | id in h.scene
      ensures scene[id] == h.scene[id].(remove := h.scene[id].remove || Doomed(h, id))
    {
      assert id in Ascending(h.scene.Keys);
    }
    assert forall id :: id in h.scene && !scene[id].remove ==> scene[id] == h.scene[id];
  }

  /** sendAllNetworkedEntitiesToClient: the whole map backwards, local and marked entities included */
  function SnapshotOf(scene: Scene): seq<Message> {
    Snapshots(scene, Ascending(scene.Keys))
  }

  function Snapshots(scene: Scene, ids: seq<EntityID>): (ms: seq<Message>)
    requires forall i :: 0 <= i < |ids| ==> ids[i] in scene
    ensures |ms| == |ids| && forall i :: 0 <= i < |ids| ==> ms[i] == Snapshot(scene[ids[|ids| - 1 - i]].info)
  {
    if ids == [] then [] else [Snapshot(scene[ids[|ids| - 1]].info)] + Snapshots(scene, ids[..|ids| - 1])
  }

  lemma SnapshotsStep(scene: Scene, ids: seq<EntityID>, i: nat, ms: seq<Message>)
    requires i < |ids| && forall i :: 0 <= i < |ids| ==> ids[i] in scene
    ensures ms + Snapshots(scene, ids[..i + 1]) == (ms + [Snapshot(scene[ids[i]].info)]) + Snapshots(scene, ids[..i])
  {
    assert ids[..i + 1][..i] == ids[..i];
  }

  /** What clients ask for */
  datatype Request = ForCreation(info: EntityInfo) | ForDeletion(id: EntityID)

  /** Whoever a request names, the sender becomes the owner; only the owner's deletions are granted. */
  function Grant(t: Types, h: Host, r: Request, sender: ClientID): Result
    requires t.Valid() && (r.ForCreation? ==> t.Covers(r.info))
  {
    match r
    case ForCreation(info) => CreateNetworked(t, h, info.(ownerID := sender))
    case ForDeletion(id) =>
      if id in h.scene && h.scene[id].info.ownerID == sender then Broadcast(h, [Deletion(id)]) else Result(h, [])
  }

  /** createEntity for a new local entity */
  function CreateLocal(h: Host, info: EntityInfo): Host {
    h.(localID := h.localID - 1, scene := h.scene[h.localID := Entity(info.(ID := h.localID), false)])
  }
}
