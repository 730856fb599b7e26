/** The host and its clients together. Everything the server sends a client arrives, once and in the order
    sent; requests of clients, handled one at a time, and everything else happen in any order. */
module Replication {
  import opened Entities
  import opened SceneTree
  import opened Scenes

  /** A connected client: its scene, what is on its way to it, and whether its CONNECTED has been handled */
  datatype Client = Client(scene: Scene, inflight: seq<Message>, synced: bool) {
    /** Its networked entities once all that is on its way has arrived */
    function View(): Infos {
      Live(HandleAll(scene, inflight))
    }
  }

  datatype World = World(host: Host, clients: map<ClientID, Client>) {
    function HostView(): Infos {
      Live(host.scene)
    }

    function View(c: ClientID): Infos
      requires c in clients
    {
      clients[c].View()
    }

    predicate Synced(c: ClientID) {
      c in clients && clients[c].synced
    }
  }

  function Init(): World {
    World(Host(map[], 1, -1, true), map[])
  }

  datatype Step =
    | Join(c: ClientID, scene: Scene)       // the transport accepts a client, whatever it has in its scene
    | HandleConnected(c: ClientID)          // the host handles CONNECTED and sends the snapshot
    | Leave(c: ClientID)
    | Deliver(c: ClientID)                  // the next message for the client arrives
    | ClientUpdate(c: ClientID)
    | ClientLocal(c: ClientID, info: EntityInfo)   // createEntity at a client
    | ClientMark(c: ClientID, id: EntityID)        // an entity of a client's scene sets its own remove
    | HostLocal(info: EntityInfo)                  // createEntity at the host
    | HostMark(id: EntityID)                       // an entity of the host's scene sets its own remove
    | HostCreate(info: EntityInfo)
    | HostDelete(id: EntityID)
    | Ask(c: ClientID, request: Request)    // the host handles a request, of a client perhaps gone by now
    | HostUpdate

  /** Creations that do not end make no step. */
  ghost predicate Enabled(t: Types, w: World, step: Step) {
    match step
    case Join(c, scene) => c > HOST && c !in w.clients
    case HandleConnected(c) => c in w.clients && !w.clients[c].synced
    case Leave(c) => c in w.clients
    case Deliver(c) => c in w.clients && w.clients[c].inflight != []
    case ClientUpdate(c) => c in w.clients
    case ClientLocal(c, info) => c in w.clients && info.ID != 0
    case ClientMark(c, id) => c in w.clients && id in w.clients[c].scene
    case _ => HostEnabled(t, w.host, step)
  }

  ghost predicate HostEnabled(t: Types, h: Host, step: Step) {
    match step
    case HostLocal(info) => t.Accepts(info)
    case HostMark(id) => id in h.scene
    case HostCreate(info) => t.Covers(info)
    case HostDelete(id) => id in h.scene
    case Ask(c, request) => c >= HOST && (request.ForCreation? ==> t.Covers(request.info))
    case _ => true
  }

  /** What the host does in a step, and broadcasts */
  ghost function HostStep(t: Types, h: Host, step: Step): Result
    requires t.Valid() && HostEnabled(t, h, step)
  {
    match step
    case HostLocal(info) => Result(Arrive(t.builders, h, Creation(info)), [])
    case HostMark(id) => Result(h.(scene := Marked(h.scene, id)), [])
    case HostCreate(info) => CreateNetworked(t, h, info)
    case HostDelete(id) => Delete(h, id)
    case Ask(c, request) => Grant(t, h, request, c)
    case HostUpdate => Update(h)
    case _ => Result(h, [])
  }

  /** A client's update: it cannot delete networked orphans but only ask for that. */
  function ClientScene(scene: Scene): Scene {
    Survivors(Host(scene, 0, -1, false))
  }

  function SendTo(client: Client, ms: seq<Message>): Client {
    client.(inflight := client.inflight + ms)
  }

  function SendAll(clients: map<ClientID, Client>, ms: seq<Message>): map<ClientID, Client> {
    map c | c in clients :: SendTo(clients[c], ms)
  }

  ghost function Apply(t: Types, w: World, step: Step): World
    requires t.Valid() && Enabled(t, w, step)
  {
    match step
    case Join(c, scene) => w.(clients := w.clients[c := Client(scene, [], false)])
    case HandleConnected(c) =>
      w.(clients := w.clients[c := SendTo(w.clients[c], SnapshotOf(w.host.scene)).(synced := true)])
    case Leave(c) => w.(clients := w.clients - {c})
    case Deliver(c) =>
      var k := w.clients[c];
      w.(clients := w.clients[c := k.(scene := Handle(k.scene, k.inflight[0]), inflight := k.inflight[1..])])
    case ClientUpdate(c) => Rescened(w, c, ClientScene(w.clients[c].scene))
    case ClientLocal(c, info) => Rescened(w, c, w.clients[c].scene[info.ID := Entity(info, false)])
    case ClientMark(c, id) => Rescened(w, c, Marked(w.clients[c].scene, id))
    case _ =>
      var r := HostStep(t, w.host, step);
      World(r.host, SendAll(w.clients, r.sent))
  }

  function Rescened(w: World, c: ClientID, scene: Scene): World
    requires c in w.clients
  {
    w.(clients := w.clients[c := w.clients[c].(scene := scene)])
  }

  // ----- what messages do to views

  function Mentions(ms: seq<Message>): set<EntityID> {
    if ms == [] then {} else {if ms[0].Deletion? then ms[0].id else ms[0].info.ID} + Mentions(ms[1..])
  }

  predicate SameAt(a: Infos, b: Infos, id: EntityID) {
    (id in a <==> id in b) && (id in a ==> a[id] == b[id])
  }

  /** After messages two views agree about what these mention, and otherwise as before. */
  lemma {:induction false} Mentioned(a: Infos, b: Infos, ms: seq<Message>, id: EntityID)
    requires id > 0
    ensures SameAt(HandleAllLive(a, ms), HandleAllLive(b, ms), id) <==> id in Mentions(ms) || SameAt(a, b, id)
    decreases |ms|
  {
    if ms == [] {
    } else {
      Mentioned(HandleLive(a, ms[0]), HandleLive(b, ms[0]), ms[1..], id);
    }
  }

  lemma {:induction false} NotMentioned(a: Infos, ms: seq<Message>, id: EntityID)
    requires id !in Mentions(ms)
    ensures SameAt(HandleAllLive(a, ms), a, id)
    decreases |ms|
  {
    if ms == [] {
    } else {
      NotMentioned(HandleLive(a, ms[0]), ms[1..], id);
    }
  }

  // ----- what the host broadcasts is what happens to it

  lemma {:induction false} DeletionsLive(h: Host, live: Infos, ids: seq<EntityID>)
    requires forall id :: id in live ==> id > 0
    ensures HandleAllLive(live, OrphanDeletions(h, ids)) == map id | id in live
            && !(id in ids && Doomed(h, id)) :: live[id]
    decreases |ids|
  {
    if ids == [] {
    } else {
      var id := ids[|ids| - 1];
      var init := ids[..|ids| - 1];
      DeletionsLive(h, live, init);
      assert ids == init + [id];
      var ms := if Doomed(h, id) && id >= 0 then [Deletion(id)] else [];
      HandleAllLiveSplits(live, OrphanDeletions(h, init), ms);
      if ms != [] {
        assert ms[1..] == [];
      }
    }
  }

  predicate Lists(ids: seq<EntityID>, scene: Scene) {
    (forall i :: 0 <= i < |ids| ==> ids[i] in scene) && (forall id :: id in scene ==> id in ids)
  }

  lemma KeysInOrder(scene: Scene) returns (ids: seq<EntityID>)
    ensures ids == Ascending(scene.Keys) && Lists(ids, scene)
  {
    ids := Ascending(scene.Keys);
    forall id | id in scene
      ensures id in ids
    {
      assert id in scene.Keys;
    }
  }

  lemma UpdateLive(h: Host, ids: seq<EntityID>)
    requires Lists(ids, h.scene)
    ensures Live(Next(h).scene) == HandleAllLive(Live(h.scene), OrphanDeletions(h, ids))
  {
    DeletionsLive(h, Live(h.scene), ids);
  }

  /** Entities a step changes at the host without a word to anybody */
  function HostSilent(step: Step): set<EntityID> {
    match step
    case HostMark(id) => {id}
    case HostLocal(info) => {info.ID}
    case _ => {}
  }

  /** Entities a step changes at this client */
  function ClientSilent(step: Step, c: ClientID): set<EntityID> {
    match step
    case ClientMark(c', id) => if c' == c then {id} else {}
    case ClientLocal(c', info) => if c' == c then {info.ID} else {}
    case _ => {}
  }

  predicate HostInv(h: Host) {
    h.networkReady && h.nextID > 0 && h.localID < 0 && Keyed(h.scene)
  }

  lemma {:induction false} CreateCounts(t: Types, next: EntityID, info: EntityInfo)
    requires t.Valid() && t.Covers(info)
    ensures Create(t, next, info).1 >= next
  {
    if t.Accepts(info) {
      var tree := CreateBuilds(t, next, info);
    }
  }

  lemma HostStepKeepsInv(t: Types, h: Host, step: Step)
    requires t.Valid() && HostInv(h) && HostEnabled(t, h, step)
    ensures HostInv(HostStep(t, h, step).host)
  {
    var r := HostStep(t, h, step);
    match step
    case HostCreate(info) =>
      CreateCounts(t, h.nextID, info);
      HandleAllKeyed(h.scene, r.sent);
    case Ask(c, ForCreation(info)) =>
      CreateCounts(t, h.nextID, info.(ownerID := c));
      HandleAllKeyed(h.scene, r.sent);
    case Ask(c, ForDeletion(id)) =>
      HandleAllKeyed(h.scene, r.sent);
    case HostDelete(id) => DeleteMarks(h, id);
    case _ =>
  }

  /** Apart from what changes silently, the host's own networked entities change just as its broadcasts say. */
  lemma HostStepLive(t: Types, h: Host, step: Step)
    requires t.Valid() && HostInv(h) && HostEnabled(t, h, step) && !step.HostMark? && !step.HostLocal?
    ensures var r := HostStep(t, h, step); Live(r.host.scene) == HandleAllLive(Live(h.scene), r.sent)
  {
    var r := HostStep(t, h, step);
    match step
    case HostUpdate =>
      var ids := KeysInOrder(h.scene);
      UpdateLive(h, ids);
    case HostDelete(id) =>
      DeleteMarks(h, id);
      LiveHandlesAll(h.scene, r.sent);
      HandleOne(h.scene, Deletion(id));
    case _ =>
      LiveHandlesAll(h.scene, r.sent);
  }

  lemma HostStepAt(t: Types, h: Host, step: Step, id: EntityID)
    requires t.Valid() && HostInv(h) && HostEnabled(t, h, step) && id > 0 && id !in HostSilent(step)
    ensures var r := HostStep(t, h, step); SameAt(Live(r.host.scene), HandleAllLive(Live(h.scene), r.sent), id)
  {
    if !step.HostMark? && !step.HostLocal? {
      HostStepLive(t, h, step);
    }
  }

  // ----- the snapshot

  /** All the networked entities, marked or not */
  function Networked(scene: Scene): Infos {
    map id | id in scene && id > 0 :: scene[id].info
  }

  lemma {:induction false} SnapshotsLive(scene: Scene, view: Infos, ids: seq<EntityID>)
    requires Keyed(scene) && forall i :: 0 <= i < |ids| ==> ids[i] in scene
    ensures var r := HandleAllLive(view, Snapshots(scene, ids));
            && (forall id :: id in r <==> id in view || (id > 0 && id in ids))
            && (forall id :: id in r ==> r[id] == if id in ids && id > 0 then scene[id].info else view[id])
    decreases |ids|
  {
    if ids == [] {
    } else {
      var init := ids[..|ids| - 1];
      var id := ids[|ids| - 1];
      assert ids == init + [id];
      var ms := Snapshots(scene, ids);
      assert ms[1..] == Snapshots(scene, init);
      SnapshotsLive(scene, HandleLive(view, ms[0]), init);
    }
  }

  lemma AllSnapshotsLive(scene: Scene, view: Infos, ids: seq<EntityID>, id: EntityID)
    requires Keyed(scene) && Lists(ids, scene)
    ensures var r := HandleAllLive(view, Snapshots(scene, ids));
            && (id in r <==> id in view || id in Networked(scene))
            && (id in r ==> r[id] == if id in Networked(scene) then scene[id].info else view[id])
  {
    SnapshotsLive(scene, view, ids);
    assert id in ids <==> id in scene;
  }

  /** The host's networked entities, marked or not, are put over whatever the view held before. */
  lemma SnapshotLive(scene: Scene, view: Infos, id: EntityID)
    requires Keyed(scene)
    ensures var r := HandleAllLive(view, SnapshotOf(scene));
            && (id in r <==> id in view || id in Networked(scene))
            && (id in r ==> r[id] == if id in Networked(scene) then scene[id].info else view[id])
  {
    var ids := KeysInOrder(scene);
    AllSnapshotsLive(scene, view, ids, id);
  }

  lemma {:induction false} SnapshotsScene(scene: Scene, client: Scene, ids: seq<EntityID>)
    requires Keyed(scene) && forall i :: 0 <= i < |ids| ==> ids[i] in scene
    ensures var r := HandleAll(client, Snapshots(scene, ids));
            && (forall id :: id in r <==> id in client || id in ids)
            && (forall id :: id in r ==> r[id] == if id in ids then Entity(scene[id].info, false) else client[id])
    decreases |ids|
  {
    if ids == [] {
    } else {
      var init := ids[..|ids| - 1];
      var id := ids[|ids| - 1];
      assert ids == init + [id];
      var ms := Snapshots(scene, ids);
      assert ms[1..] == Snapshots(scene, init);
      SnapshotsScene(scene, Handle(client, ms[0]), init);
    }
  }

  lemma AllSnapshotsScene(scene: Scene, client: Scene, ids: seq<EntityID>, id: EntityID)
    requires Keyed(scene) && Lists(ids, scene)
    ensures var r := HandleAll(client, Snapshots(scene, ids));
            && (id in r <==> id in client || id in scene)
            && (id in r ==> r[id] == if id in scene then Entity(scene[id].info, false) else client[id])
  {
    SnapshotsScene(scene, client, ids);
    assert id in ids <==> id in scene;
  }

  /** The same of the whole scene: after the snapshot an entity of the client is the host's, unmarked, exactly if
      the host has one under its ID, be it networked or local to the host; all others are untouched. */
  lemma SnapshotScene(scene: Scene, client: Scene, id: EntityID)
    requires Keyed(scene)
    ensures var r := HandleAll(client, SnapshotOf(scene));
            && (id in r <==> id in client || id in scene)
            && (id in r ==> r[id] == if id in scene then Entity(scene[id].info, false) else client[id])
  {
    var ids := KeysInOrder(scene);
    AllSnapshotsScene(scene, client, ids, id);
  }

  // ----- every step

  /** What a step adds to what is on its way to a client: if its CONNECTED is handled the snapshot, otherwise what
      is broadcast */
  ghost function Adds(t: Types, w: World, step: Step, c: ClientID): seq<Message>
    requires t.Valid() && Enabled(t, w, step)
  {
    if step == HandleConnected(c) then SnapshotOf(w.host.scene) else Sent(t, w, step)
  }

  /** What is broadcast in a step */
  ghost function Sent(t: Types, w: World, step: Step): seq<Message>
    requires t.Valid() && Enabled(t, w, step)
  {
    HostStep(t, w.host, step).sent
  }

  lemma SendView(k: Client, ms: seq<Message>)
    ensures SendTo(k, ms).View() == HandleAllLive(k.View(), ms)
  {
    HandleAllSplits(k.scene, k.inflight, ms);
    LiveHandlesAll(HandleAll(k.scene, k.inflight), ms);
  }

  lemma SameLiveSameView(k: Client, scene: Scene)
    requires Live(scene) == Live(k.scene)
    ensures k.(scene := scene).View() == k.View()
  {
    LiveHandlesAll(k.scene, k.inflight);
    LiveHandlesAll(scene, k.inflight);
  }

  /** A change of the client's scene shows in what it will have unless a message on its way hides it. */
  lemma SceneView(k: Client, scene: Scene, id: EntityID)
    requires id > 0
    ensures id in Mentions(k.inflight) || SameAt(Live(scene), Live(k.scene), id)
            ==> SameAt(k.(scene := scene).View(), k.View(), id)
    ensures id !in Mentions(k.inflight) ==> SameAt(k.(scene := scene).View(), Live(scene), id)
  {
    LiveHandlesAll(k.scene, k.inflight);
    LiveHandlesAll(scene, k.inflight);
    Mentioned(Live(scene), Live(k.scene), k.inflight, id);
    if id !in Mentions(k.inflight) {
      NotMentioned(Live(scene), k.inflight, id);
    }
  }

  lemma StepClient(t: Types, w: World, step: Step, c: ClientID)
    requires t.Valid() && Enabled(t, w, step)
    ensures Apply(t, w, step).host == HostStep(t, w.host, step).host
    ensures c in w.clients && step != Leave(c) ==>
              c in Apply(t, w, step).clients
              && Apply(t, w, step).clients[c].synced == (w.clients[c].synced || step == HandleConnected(c))
    ensures c in Apply(t, w, step).clients && c !in w.clients
            ==> step.Join? && step.c == c && !Apply(t, w, step).clients[c].synced
  {
  }

  lemma StepView(t: Types, w: World, step: Step, c: ClientID)
    requires t.Valid() && Enabled(t, w, step) && c in w.clients && step != Leave(c)
    requires step.ClientLocal? || step.ClientMark? ==> step.c != c
    ensures c in Apply(t, w, step).clients && Apply(t, w, step).View(c) == HandleAllLive(w.View(c), Adds(t, w, step, c))
  {
    if step.HostLocal? || step.HostMark? || step.HostCreate? || step.HostDelete? || step.Ask? || step.HostUpdate?
        || step == HandleConnected(c) {
      SendView(w.clients[c], Adds(t, w, step, c));
    } else {
      QuietStepView(t, w, step, c);
    }
  }

  lemma QuietStepView(t: Types, w: World, step: Step, c: ClientID)
    requires t.Valid() && Enabled(t, w, step) && c in w.clients && step != Leave(c) && step != HandleConnected(c)
    requires step.Join? || step.HandleConnected? || step.Leave? || step.Deliver? || step.ClientUpdate?
             || step.ClientLocal? || step.ClientMark?
    requires step.ClientLocal? || step.ClientMark? ==> step.c != c
    ensures c in Apply(t, w, step).clients && Apply(t, w, step).View(c) == w.View(c) && Adds(t, w, step, c) == []
  {
    if step.ClientUpdate? && step.c == c {
      SameLiveSameView(w.clients[c], ClientScene(w.clients[c].scene));
    }
  }

  lemma StepViewAt(t: Types, w: World, step: Step, c: ClientID, id: EntityID)
    requires t.Valid() && Enabled(t, w, step) && c in w.clients && step != Leave(c) && id > 0
             && id !in ClientSilent(step, c)
    ensures c in Apply(t, w, step).clients
            && SameAt(Apply(t, w, step).View(c), HandleAllLive(w.View(c), Adds(t, w, step, c)), id)
  {
    match step
    case ClientLocal(c', info) =>
      if c' == c {
        SceneView(w.clients[c], w.clients[c].scene[info.ID := Entity(info, false)], id);
      } else {
        StepView(t, w, step, c);
      }
    case ClientMark(c', other) =>
      if c' == c {
        SceneView(w.clients[c], Marked(w.clients[c].scene, other), id);
      } else {
        StepView(t, w, step, c);
      }
    case _ => StepView(t, w, step, c);
  }

  // ----- convergence

  /** Networked entities that the client will have and the host does not, or not the same, or the other way round */
  function Differing(w: World, c: ClientID): set<EntityID>
    requires c in w.clients
  {
    set id | id in w.View(c).Keys + w.HostView().Keys && !SameAt(w.View(c), w.HostView(), id)
  }

  /** The client ends up with exactly the host's live networked entities. */
  predicate Converges(w: World, c: ClientID)
    requires c in w.clients
  {
    w.View(c) == w.HostView()
  }

  lemma ConvergesIffNothingDiffers(w: World, c: ClientID)
    requires c in w.clients
    ensures Converges(w, c) <==> Differing(w, c) == {}
  {
    if Differing(w, c) == {} {
      forall id | id in w.View(c).Keys + w.HostView().Keys
        ensures SameAt(w.View(c), w.HostView(), id)
      {
        assert id !in Differing(w, c);
      }
      assert w.View(c).Keys == w.HostView().Keys;
    }
  }

  function MarkedNetworked(scene: Scene): set<EntityID> {
    set id | id in scene && id > 0 && scene[id].remove
  }

  /** What a snapshot taken now would leave differing: what the host has marked but not yet erased, and what only the
      client has */
  function Missed(w: World, c: ClientID): set<EntityID>
    requires c in w.clients
  {
    MarkedNetworked(w.host.scene) + (w.View(c).Keys - w.host.scene.Keys)
  }

  lemma SnapshotExact(t: Types, w: World, c: ClientID, id: EntityID)
    requires t.Valid() && HostInv(w.host) && Enabled(t, w, HandleConnected(c))
    ensures var after := Apply(t, w, HandleConnected(c));
            c in after.clients && (id in Differing(after, c) <==> id in Missed(w, c))
  {
    StepView(t, w, HandleConnected(c), c);
    SnapshotLive(w.host.scene, w.View(c), id);
  }

  /** Any other step: an ID differs exactly if it did and is not mentioned, unless one of the two sides changes it
      silently. */
  lemma StepExact(t: Types, w: World, step: Step, c: ClientID, id: EntityID)
    requires t.Valid() && HostInv(w.host) && Enabled(t, w, step) && c in w.clients && step != Leave(c)
             && step != HandleConnected(c)
    requires id !in HostSilent(step) + ClientSilent(step, c)
    ensures c in Apply(t, w, step).clients
    ensures id in Differing(Apply(t, w, step), c) <==> id in Differing(w, c) && id !in Mentions(Sent(t, w, step))
  {
    StepClient(t, w, step, c);
    if id > 0 {
      var ms := Sent(t, w, step);
      StepViewAt(t, w, step, c, id);
      HostStepAt(t, w.host, step, id);
      Mentioned(w.View(c), w.HostView(), ms, id);
    }
  }

  /** And what a silent change does: marked at the host, a networked entity differs exactly if the client will have
      it; marked at the client and not mentioned in what is on its way, exactly if the host has it. */
  lemma MarkExact(t: Types, w: World, step: Step, c: ClientID, id: EntityID)
    requires t.Valid() && HostInv(w.host) && Enabled(t, w, step) && c in w.clients && id > 0
    requires step == HostMark(id) || step == ClientMark(c, id)
    ensures c in Apply(t, w, step).clients
    ensures step == HostMark(id) ==> (id in Differing(Apply(t, w, step), c) <==> id in w.View(c))
    ensures step == ClientMark(c, id) ==>
              (id in Differing(Apply(t, w, step), c) <==>
               if id in Mentions(w.clients[c].inflight) then id in Differing(w, c) else id in w.HostView())
  {
    if step == HostMark(id) {
      StepView(t, w, step, c);
    } else {
      SceneView(w.clients[c], Marked(w.clients[c].scene, id), id);
    }
  }

  /** createEntity under a networked ID tells nobody either: the ID differs exactly if the other side will not have just
      that entity, unless at the client a message on its way hides the change. */
  lemma LocalExact(t: Types, w: World, step: Step, c: ClientID, info: EntityInfo)
    requires t.Valid() && HostInv(w.host) && Enabled(t, w, step) && c in w.clients && info.ID > 0
    requires step == HostLocal(info) || step == ClientLocal(c, info)
    ensures c in Apply(t, w, step).clients
    ensures step == HostLocal(info) ==>
              (info.ID in Differing(Apply(t, w, step), c) <==> !(info.ID in w.View(c) && w.View(c)[info.ID] == info))
    ensures step == ClientLocal(c, info) ==>
              (info.ID in Differing(Apply(t, w, step), c) <==>
               if info.ID in Mentions(w.clients[c].inflight) then info.ID in Differing(w, c)
               else !(info.ID in w.HostView() && w.HostView()[info.ID] == info))
  {
    if step == HostLocal(info) {
      StepView(t, w, step, c);
    } else {
      SceneView(w.clients[c], w.clients[c].scene[info.ID := Entity(info, false)], info.ID);
    }
  }

  // ----- whole runs

  ghost predicate CanRun(t: Types, w: World, steps: seq<Step>)
    requires t.Valid()
    decreases |steps|
  {
    steps == [] || (Enabled(t, w, steps[0]) && CanRun(t, Apply(t, w, steps[0]), steps[1..]))
  }

  ghost function Exec(t: Types, w: World, steps: seq<Step>): World
    requires t.Valid() && CanRun(t, w, steps)
    decreases |steps|
  {
    if steps == [] then w else Exec(t, Apply(t, w, steps[0]), steps[1..])
  }

  lemma {:induction false} RunKeepsInv(t: Types, w: World, steps: seq<Step>)
    requires t.Valid() && CanRun(t, w, steps) && HostInv(w.host)
    ensures HostInv(Exec(t, w, steps).host)
    decreases |steps|
  {
    if steps == [] {
    } else {
      StepClient(t, w, steps[0], HOST);
      HostStepKeepsInv(t, w.host, steps[0]);
      RunKeepsInv(t, Apply(t, w, steps[0]), steps[1..]);
    }
  }

  /** All that the host broadcasts in a run */
  ghost function Broadcasts(t: Types, w: World, steps: seq<Step>): seq<Message>
    requires t.Valid() && CanRun(t, w, steps)
    decreases |steps|
  {
    if steps == [] then []
    else Sent(t, w, steps[0]) + Broadcasts(t, Apply(t, w, steps[0]), steps[1..])
  }

  /** What changes silently at the host or at this client in a run */
  function AllSilent(steps: seq<Step>, c: ClientID): set<EntityID>
    decreases |steps|
  {
    if steps == [] then {} else HostSilent(steps[0]) + ClientSilent(steps[0], c) + AllSilent(steps[1..], c)
  }

  lemma {:induction false} MentionsJoin(a: seq<Message>, b: seq<Message>)
    ensures Mentions(a + b) == Mentions(a) + Mentions(b)
    decreases |a|
  {
    if a == [] {
      assert a + b == b;
    } else {
      assert (a + b)[1..] == a[1..] + b;
      MentionsJoin(a[1..], b);
    }
  }

  /** Over any run, from any state: whatever is not changed silently differs in the end exactly if it did and has not
      been mentioned since. */
  lemma {:induction false} RunExact(t: Types, w: World, steps: seq<Step>, c: ClientID, id: EntityID)
    requires t.Valid() && CanRun(t, w, steps) && HostInv(w.host) && w.Synced(c) && Leave(c) !in steps
    requires id !in AllSilent(steps, c)
    ensures Exec(t, w, steps).Synced(c)
    ensures id in Differing(Exec(t, w, steps), c) <==> id in Differing(w, c) && id !in Mentions(Broadcasts(t, w, steps))
    decreases |steps|
  {
    if steps == [] {
    } else {
      var next := Apply(t, w, steps[0]);
      StepExact(t, w, steps[0], c, id);
      StepClient(t, w, steps[0], c);
      HostStepKeepsInv(t, w.host, steps[0]);
      RunExact(t, next, steps[1..], c, id);
      MentionsJoin(Sent(t, w, steps[0]), Broadcasts(t, next, steps[1..]));
    }
  }

  /** Main theorem, ID by ID: after a snapshot taken in state w and any run, an ID that has not been changed silently
      differs if and only if the snapshot missed it and it has not been mentioned since. */
  lemma DiffersExact(t: Types, w: World, c: ClientID, steps: seq<Step>, id: EntityID)
    requires t.Valid() && HostInv(w.host) && Enabled(t, w, HandleConnected(c))
    requires CanRun(t, Apply(t, w, HandleConnected(c)), steps) && Leave(c) !in steps && id !in AllSilent(steps, c)
    ensures var snapped := Apply(t, w, HandleConnected(c));
            var after := Exec(t, snapped, steps);
            && after.Synced(c)
            && (id in Differing(after, c) <==> id in Missed(w, c) && id !in Mentions(Broadcasts(t, snapped, steps)))
  {
    SnapshotExact(t, w, c, id);
    StepClient(t, w, HandleConnected(c), c);
    RunExact(t, Apply(t, w, HandleConnected(c)), steps, c, id);
  }

  /** For the client as a whole, from any state: without silent changes of networked entities it has converged in the
      end if and only if all that differed has been mentioned since. */
  lemma RunConverges(t: Types, w: World, steps: seq<Step>, c: ClientID)
    requires t.Valid() && CanRun(t, w, steps) && HostInv(w.host) && w.Synced(c) && Leave(c) !in steps
    requires forall id :: id in AllSilent(steps, c) ==> id <= 0
    ensures var after := Exec(t, w, steps);
            c in after.clients && (Converges(after, c) <==> Differing(w, c) <= Mentions(Broadcasts(t, w, steps)))
  {
    var after := Exec(t, w, steps);
    var mentioned := Mentions(Broadcasts(t, w, steps));
    assert 1 !in AllSilent(steps, c);
    RunExact(t, w, steps, c, 1);
    forall id | id > 0
      ensures id in Differing(after, c) <==> id in Differing(w, c) && id !in mentioned
    {
      RunExact(t, w, steps, c, id);
    }
    ConvergesIffNothingDiffers(after, c);
    SubsetIff(Differing(after, c), Differing(w, c), mentioned);
  }

  lemma SubsetIff(left: set<EntityID>, all: set<EntityID>, gone: set<EntityID>)
    requires forall id :: id in left || id in all ==> id > 0
    requires forall id :: id > 0 ==> (id in left <==> id in all && id !in gone)
    ensures left == {} <==> all <= gone
  {
    if left == {} {
      forall id | id in all
        ensures id in gone
      {
        assert id !in left;
      }
    }
    if all <= gone {
      forall id
        ensures id !in left
      {
      }
      assert left == {};
    }
  }

  /** From the snapshot on: the client has converged if and only if all the snapshot missed has been mentioned since. */
  lemma ConvergenceExact(t: Types, w: World, c: ClientID, steps: seq<Step>)
    requires t.Valid() && HostInv(w.host) && Enabled(t, w, HandleConnected(c))
    requires CanRun(t, Apply(t, w, HandleConnected(c)), steps) && Leave(c) !in steps
    requires forall id :: id in AllSilent(steps, c) ==> id <= 0
    ensures var snapped := Apply(t, w, HandleConnected(c));
            var after := Exec(t, snapped, steps);
            && c in after.clients
            && (Converges(after, c) <==> Missed(w, c) <= Mentions(Broadcasts(t, snapped, steps)))
  {
    var snapped := Apply(t, w, HandleConnected(c));
    StepClient(t, w, HandleConnected(c), c);
    forall id
      ensures id in Differing(snapped, c) <==> id in Missed(w, c)
    {
      SnapshotExact(t, w, c, id);
    }
    assert Differing(snapped, c) == Missed(w, c);
    RunConverges(t, snapped, steps, c);
  }

  // ----- late joiners

  /** In this run the client joins with no networked entities, has its CONNECTED handled when none at the host
      is marked, and while it is there none is changed silently. */
  ghost predicate CleanStep(w: World, step: Step, c: ClientID) {
    && (step.Join? && step.c == c ==> Live(step.scene) == map[])
    && (step == HandleConnected(c) ==> MarkedNetworked(w.host.scene) == {})
    && (c in w.clients ==> forall id :: id in HostSilent(step) + ClientSilent(step, c) ==> id <= 0)
  }

  ghost predicate CleanRun(t: Types, w: World, steps: seq<Step>, c: ClientID)
    requires t.Valid() && CanRun(t, w, steps)
    decreases |steps|
  {
    steps == [] || (CleanStep(w, steps[0], c) && CleanRun(t, Apply(t, w, steps[0]), steps[1..], c))
  }

  /** Before its snapshot the client is only short of entities, after it of nothing. */
  ghost predicate OnTrack(w: World, c: ClientID) {
    c in w.clients ==>
      if w.clients[c].synced then Converges(w, c) else forall id :: id in w.View(c) ==> id in w.HostView()
  }

  lemma CleanKeepsTrack(t: Types, w: World, step: Step, c: ClientID)
    requires t.Valid() && HostInv(w.host) && Enabled(t, w, step) && CleanStep(w, step, c) && OnTrack(w, c)
    ensures OnTrack(Apply(t, w, step), c)
  {
    var after := Apply(t, w, step);
    StepClient(t, w, step, c);
    if c in w.clients && c in after.clients {
      if step == HandleConnected(c) {
        assert Missed(w, c) == {};
        forall id
          ensures id !in Differing(after, c)
        {
          SnapshotExact(t, w, c, id);
        }
        ConvergesIffNothingDiffers(after, c);
      } else if w.clients[c].synced {
        SyncedKeepsTrack(t, w, step, c);
      } else {
        UnsyncedKeepsTrack(t, w, step, c);
      }
    }
  }

  lemma SyncedKeepsTrack(t: Types, w: World, step: Step, c: ClientID)
    requires t.Valid() && HostInv(w.host) && Enabled(t, w, step) && CleanStep(w, step, c)
    requires c in w.clients && step != HandleConnected(c) && step != Leave(c) && Converges(w, c)
    ensures c in Apply(t, w, step).clients && Converges(Apply(t, w, step), c)
  {
    StepClient(t, w, step, c);
    ConvergesIffNothingDiffers(w, c);
    forall id | id > 0
      ensures id !in Differing(Apply(t, w, step), c)
    {
      assert id !in HostSilent(step) + ClientSilent(step, c);
      StepExact(t, w, step, c, id);
    }
    ConvergesIffNothingDiffers(Apply(t, w, step), c);
  }

  lemma UnsyncedKeepsTrack(t: Types, w: World, step: Step, c: ClientID)
    requires t.Valid() && HostInv(w.host) && Enabled(t, w, step) && CleanStep(w, step, c)
    requires c in w.clients && step != HandleConnected(c) && step != Leave(c)
    requires forall id :: id in w.View(c) ==> id in w.HostView()
    ensures c in Apply(t, w, step).clients
    ensures forall id :: id in Apply(t, w, step).View(c) ==> id in Apply(t, w, step).HostView()
  {
    StepClient(t, w, step, c);
    forall id | id > 0
      ensures id in Apply(t, w, step).View(c) ==> id in Apply(t, w, step).HostView()
    {
      var ms := Sent(t, w, step);
      assert id !in HostSilent(step) + ClientSilent(step, c);
      StepViewAt(t, w, step, c, id);
      HostStepAt(t, w.host, step, id);
      Mentioned(w.View(c), w.HostView(), ms, id);
      if id !in Mentions(ms) {
        NotMentioned(w.View(c), ms, id);
        NotMentioned(w.HostView(), ms, id);
      }
    }
  }

  lemma {:induction false} CleanRunKeepsTrack(t: Types, w: World, steps: seq<Step>, c: ClientID)
    requires t.Valid() && CanRun(t, w, steps) && HostInv(w.host) && CleanRun(t, w, steps, c) && OnTrack(w, c)
    ensures OnTrack(Exec(t, w, steps), c)
    decreases |steps|
  {
    if steps == [] {
    } else {
      CleanKeepsTrack(t, w, steps[0], c);
      StepClient(t, w, steps[0], c);
      HostStepKeepsInv(t, w.host, steps[0]);
      CleanRunKeepsTrack(t, Apply(t, w, steps[0]), steps[1..], c);
    }
  }

  /** Main theorem: after every run that was clean for the client, once its CONNECTED has been handled it will
      have, when all on its way has arrived, exactly the host's live networked entities. */
  lemma LateJoinersConverge(t: Types, steps: seq<Step>, c: ClientID)
    requires t.Valid() && CanRun(t, Init(), steps) && CleanRun(t, Init(), steps, c)
    ensures var w := Exec(t, Init(), steps);
            && (w.Synced(c) ==> Live(HandleAll(w.clients[c].scene, w.clients[c].inflight)) == Live(w.host.scene))
            && (w.Synced(c) && w.clients[c].inflight == [] ==> Live(w.clients[c].scene) == Live(w.host.scene))
  {
    CleanRunKeepsTrack(t, Init(), steps, c);
  }

  // ----- runs that go wrong

  lemma {:induction false} RunOneMore(t: Types, w: World, steps: seq<Step>, step: Step)
    requires t.Valid() && CanRun(t, w, steps) && Enabled(t, Exec(t, w, steps), step)
    ensures CanRun(t, w, steps + [step]) && Exec(t, w, steps + [step]) == Apply(t, Exec(t, w, steps), step)
    decreases |steps|
  {
    var all := steps + [step];
    if steps == [] {
      assert all == [step] && all[1..] == [];
    } else {
      assert all[1..] == steps[1..] + [step];
      RunOneMore(t, Apply(t, w, steps[0]), steps[1..], step);
    }
  }

  /** Types without children */
  function Plain(kind: Str): (t: Types)
    ensures t.Valid() && forall info :: t.Covers(info)
  {
    Types({kind}, map[], map[kind := 0])
  }

  lemma CreatePlain(kind: Str, next: EntityID, info: EntityInfo)
    requires Plain(kind).Accepts(info)
    ensures var id := RootID(next, info);
            Create(Plain(kind), next, info)
                == ([info.(ID := id, ownerID := OwnerOf(info.ownerID))], FirstID(next, info))
  {
    var created := info.(ID := RootID(next, info), ownerID := OwnerOf(info.ownerID));
    var (infos, end) := CreateChildren(Plain(kind), [], FirstID(next, info), info.ownerID, RootID(next, info), 0);
    assert infos == [] && end == FirstID(next, info) && infos + [created] == [created];
  }

  /** What the host makes of a creation without children */
  lemma CreatedPlain(kind: Str, h: Host, info: EntityInfo)
    requires Plain(kind).Accepts(info) && h.networkReady
    ensures var id := RootID(h.nextID, info);
            var created := info.(ID := id, ownerID := OwnerOf(info.ownerID));
            CreateNetworked(Plain(kind), h, info)
            == Result(h.(nextID := FirstID(h.nextID, info), scene := h.scene[id := Entity(created, false)]),
                [Creation(created)])
  {
    CreatePlain(kind, h.nextID, info);
    var created := info.(ID := RootID(h.nextID, info), ownerID := OwnerOf(info.ownerID));
    assert Creations([created]) == [Creation(created)];
    HandleOne(h.scene, Creation(created));
  }

  lemma CreateThenDelete(kind: Str, info: EntityInfo)
    requires Plain(kind).Accepts(info) && info.ID == 0
    ensures var made := Apply(Plain(kind), Init(), HostCreate(info));
            && Enabled(Plain(kind), made, HostDelete(1))
            && var w := Apply(Plain(kind), made, HostDelete(1));
                1 in MarkedNetworked(w.host.scene) && w.clients == map[]
  {
    CreatedPlain(kind, Init().host, info);
    DeleteMarks(Apply(Plain(kind), Init(), HostCreate(info)).host, 1);
  }

  /** Convergence fails for an entity deleted in the frame in which a client's CONNECTED is handled: the snapshot sends
      it, and so undoes its deletion, which was broadcast before. */
  lemma MarkedAtSnapshot() returns (t: Types, c: ClientID, steps: seq<Step>)
    ensures t.Valid() && CanRun(t, Init(), steps)
    ensures var w := Exec(t, Init(), steps); w.Synced(c) && !Converges(w, c)
  {
    var info := EntityInfo([1], [1], 0, 0, 0);
    t, c := Plain([1]), 2;
    CreateThenDelete([1], info);
    steps := [];
    RunOneMore(t, Init(), steps, HostCreate(info));
    steps := steps + [HostCreate(info)];
    RunOneMore(t, Init(), steps, HostDelete(1));
    steps := steps + [HostDelete(1)];
    RunOneMore(t, Init(), steps, Join(c, map[]));
    steps := steps + [Join(c, map[])];
    var w := Exec(t, Init(), steps);
    RunKeepsInv(t, Init(), steps);
    ConvergenceExact(t, w, c, []);
    RunOneMore(t, Init(), steps, HandleConnected(c));
    steps := steps + [HandleConnected(c)];
  }

  lemma {:induction false} OnlyDoomedMentioned(h: Host, ids: seq<EntityID>, id: EntityID)
    requires id in Mentions(OrphanDeletions(h, ids))
    ensures Doomed(h, id)
    decreases |ids|
  {
    if ids == [] {
    } else {
      var last := ids[|ids| - 1];
      var front := OrphanDeletions(h, ids[..|ids| - 1]);
      MentionsJoin(front, if Doomed(h, last) && last >= 0 then [Deletion(last)] else []);
      if id in Mentions(front) {
        OnlyDoomedMentioned(h, ids[..|ids| - 1], id);
      }
    }
  }

  /** Whatever the state, a networked entity that a client will have and that marks itself at the host is gone
      there after the next update, without a word, and stays with the client. */
  lemma SelfMarkDiverges(t: Types, w: World, c: ClientID, id: EntityID)
    requires t.Valid() && HostInv(w.host) && c in w.clients && id in w.View(c) && id in w.host.scene
             && !Doomed(w.host, id)
    ensures CanRun(t, w, [HostMark(id), HostUpdate])
    ensures var after := Exec(t, w, [HostMark(id), HostUpdate]);
            c in after.clients && id !in after.host.scene && id in after.View(c) && !Converges(after, c)
  {
    var marked := Apply(t, w, HostMark(id));
    StepView(t, w, HostMark(id), c);
    StepView(t, marked, HostUpdate, c);
    var after := Apply(t, marked, HostUpdate);
    var ms := Sent(t, marked, HostUpdate);
    if id in Mentions(ms) {
      OnlyDoomedMentioned(marked.host, Ascending(marked.host.scene.Keys), id);
    }
    NotMentioned(marked.View(c), ms, id);
    TwoSteps(t, w, HostMark(id), HostUpdate);
  }

  lemma TwoSteps(t: Types, w: World, first: Step, second: Step)
    requires t.Valid() && Enabled(t, w, first) && Enabled(t, Apply(t, w, first), second)
    ensures CanRun(t, w, [first, second]) && Exec(t, w, [first, second]) == Apply(t, Apply(t, w, first), second)
  {
    RunOneMore(t, w, [], first);
    assert [] + [first] == [first];
    RunOneMore(t, w, [first], second);
    assert [first] + [second] == [first, second];
  }

  /** A client's own local entity is overwritten by the host's of the same ID. */
  lemma LocalOverwritten() returns (t: Types, c: ClientID, mine: EntityInfo, steps: seq<Step>)
    ensures t.Valid() && CanRun(t, Init(), steps) && mine.ID < 0 && ClientLocal(c, mine) in steps
    ensures var w := Exec(t, Init(), steps);
            c in w.clients && mine.ID in w.clients[c].scene && w.clients[c].scene[mine.ID].info != mine
  {
    t, c := Plain([1]), 2;
    var theirs := EntityInfo([1], [1], 0, 0, 0);
    mine := EntityInfo([1], [2], -1, 0, 0);
    steps := [];
    RunOneMore(t, Init(), steps, HostLocal(theirs));
    steps := steps + [HostLocal(theirs)];
    RunOneMore(t, Init(), steps, Join(c, map[]));
    steps := steps + [Join(c, map[])];
    RunOneMore(t, Init(), steps, ClientLocal(c, mine));
    steps := steps + [ClientLocal(c, mine)];
    var w := Exec(t, Init(), steps);
    RunOneMore(t, Init(), steps, HandleConnected(c));
    steps := steps + [HandleConnected(c)];
    OneSnapshot(w.host.scene, -1);
    RunOneMore(t, Init(), steps, Deliver(c));
    steps := steps + [Deliver(c)];
  }

  lemma OneSnapshot(scene: Scene, id: EntityID)
    requires scene.Keys == {id}
    ensures SnapshotOf(scene) == [Snapshot(scene[id].info)]
  {
    var ids := Ascending(scene.Keys);
    assert |ids| == 1 && ids[0] in scene.Keys;
  }
}
