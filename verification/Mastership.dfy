/** Who takes itself for the master of an entity. Every peer asks its own copy of it, and copies can differ. */
module Mastership {
  import opened Entities
  import opened SceneTree
  import opened Scenes
  import opened Replication
  import opened History
  import opened Ordering
  import ServerSessions

  // ----- what each peer answers

  predicate HasCopy(w: World, c: ClientID, id: EntityID) {
    if c == HOST then id in w.host.scene else c in w.clients && id in w.clients[c].scene
  }

  function Copy(w: World, c: ClientID, id: EntityID): EntityInfo
    requires HasCopy(w, c, id)
  {
    if c == HOST then w.host.scene[id].info else w.clients[c].scene[id].info
  }

  /** isOwner of this peer's copy, when it takes `self` for its ID */
  predicate Claims(w: World, c: ClientID, self: ClientID, id: EntityID) {
    HasCopy(w, c, id) && IsOwner(Copy(w, c, id), self)
  }

  function PeerID(s: ServerSessions.Server, seat: ServerSessions.Seat): ClientID
    requires ServerSessions.Present(s, seat)
  {
    match seat
    case AtHost => HOST
    case AtClient(peer) => s.peers[peer]
  }

  /** What the peer at this seat answers: the session tells it its ID, the world its copy. */
  predicate Answers(w: World, s: ServerSessions.Server, seat: ServerSessions.Seat, id: EntityID)
    requires ServerSessions.Present(s, seat) && s.peers.Keys == s.known.Keys
  {
    Claims(w, PeerID(s, seat), ServerSessions.SelfID(s, seat), id)
  }

  // ----- one owner everywhere

  predicate Names(info: EntityInfo, id: EntityID, o: ClientID) {
    info.ID == id && info.ownerID == o
  }

  predicate SceneNames(scene: Scene, id: EntityID, o: ClientID) {
    id in scene ==> Names(scene[id].info, id, o)
  }

  predicate MessageNames(m: Message, id: EntityID, o: ClientID) {
    !m.Deletion? && m.info.ID == id ==> Names(m.info, id, o)
  }

  predicate AllName(ms: seq<Message>, id: EntityID, o: ClientID) {
    forall i :: 0 <= i < |ms| ==> MessageNames(ms[i], id, o)
  }

  predicate ClientNames(k: Client, id: EntityID, o: ClientID) {
    SceneNames(k.scene, id, o) && AllName(k.inflight, id, o)
  }

  /** Every copy of the entity, and everything on its way that will become one, names this owner. */
  predicate OneOwner(w: World, id: EntityID, o: ClientID) {
    SceneNames(w.host.scene, id, o) && forall c :: c in w.clients ==> ClientNames(w.clients[c], id, o)
  }

  /** The step creates the entity for this owner only, and nobody brings or makes a copy of his own for another. */
  ghost predicate StepNames(t: Types, w: World, step: Step, id: EntityID, o: ClientID)
    requires t.Valid()
  {
    && (forall info :: Creates(t, Entry(w.host, step), info) ==> info.ID != id || info.ownerID == o)
    && (step.Join? ==> SceneNames(step.scene, id, o))
    && (step.ClientLocal? && step.info.ID == id ==> step.info.ownerID == o)
  }

  lemma {:induction false} SentNames(t: Types, w: World, step: Step, id: EntityID, o: ClientID)
    requires t.Valid() && Enabled(t, w, step) && StepNames(t, w, step, id, o)
    ensures AllName(Sent(t, w, step), id, o)
  {
    var e := Entry(w.host, step);
    var ms := Sent(t, w, step);
    forall i | 0 <= i < |ms|
      ensures MessageNames(ms[i], id, o)
    {
      NoSnapshots(t, w.host, step, ms[i]);
      if ms[i].Creation? {
        assert Creates(t, e, ms[i].info);
      }
    }
  }

  lemma {:induction false} SnapshotNames(scene: Scene, id: EntityID, o: ClientID)
    requires Keyed(scene) && SceneNames(scene, id, o)
    ensures AllName(SnapshotOf(scene), id, o)
  {
    var ids := KeysInOrder(scene);
    AllSnapshotsName(scene, ids, id, o);
  }

  lemma {:induction false} AllSnapshotsName(scene: Scene, ids: seq<EntityID>, id: EntityID, o: ClientID)
    requires Keyed(scene) && SceneNames(scene, id, o) && Lists(ids, scene)
    ensures AllName(Snapshots(scene, ids), id, o)
  {
    var ms := Snapshots(scene, ids);
    forall i | 0 <= i < |ms|
      ensures MessageNames(ms[i], id, o)
    {
      var other := ids[|ids| - 1 - i];
      assert other in scene && ms[i] == Snapshot(scene[other].info);
    }
  }

  lemma {:induction false} HostKeepsOwner(t: Types, w: World, step: Step, id: EntityID, o: ClientID)
    requires t.Valid() && Enabled(t, w, step) && HostInv(w.host) && SceneNames(w.host.scene, id, o)
    requires StepNames(t, w, step, id, o)
    ensures SceneNames(HostStep(t, w.host, step).host.scene, id, o)
  {
    StepExplained(t, Entry(w.host, step), id);
    HostStepKeepsInv(t, w.host, step);
  }

  lemma {:induction false} StepKeepsOwner(t: Types, w: World, step: Step, id: EntityID, o: ClientID)
    requires t.Valid() && Enabled(t, w, step) && HostInv(w.host) && OneOwner(w, id, o) && StepNames(t, w, step, id, o)
    ensures OneOwner(Apply(t, w, step), id, o)
  {
    var after := Apply(t, w, step);
    StepClient(t, w, step, HOST);
    HostKeepsOwner(t, w, step, id, o);
    SentNames(t, w, step, id, o);
    forall c | c in after.clients
      ensures ClientNames(after.clients[c], id, o)
    {
      if c in w.clients {
        assert ClientNames(w.clients[c], id, o);
        if step == HandleConnected(c) {
          SnapshotNames(w.host.scene, id, o);
        } else if step == Deliver(c) {
          assert MessageNames(w.clients[c].inflight[0], id, o);
        }
      }
    }
  }

  ghost predicate RunNames(t: Types, w: World, steps: seq<Step>, id: EntityID, o: ClientID)
    requires t.Valid() && CanRun(t, w, steps)
    decreases |steps|
  {
    steps == [] || (StepNames(t, w, steps[0], id, o) && RunNames(t, Apply(t, w, steps[0]), steps[1..], id, o))
  }

  lemma {:induction false} RunKeepsOwner(t: Types, w: World, steps: seq<Step>, id: EntityID, o: ClientID)
    requires t.Valid() && CanRun(t, w, steps) && HostInv(w.host) && OneOwner(w, id, o) && RunNames(t, w, steps, id, o)
    ensures OneOwner(Replication.Exec(t, w, steps), id, o)
    decreases |steps|
  {
    if steps == [] {
    } else {
      StepKeepsOwner(t, w, steps[0], id, o);
      StepClient(t, w, steps[0], HOST);
      HostStepKeepsInv(t, w.host, steps[0]);
      RunKeepsOwner(t, Apply(t, w, steps[0]), steps[1..], id, o);
    }
  }

  /** Main theorem: if a networked entity is only ever created for one owner, then after any run and any history
      of connections, at most one connected peer answers that it is the master, each from its own copy, and it
      is that owner. */
  lemma {:induction false} OneMaster(t: Types, steps: seq<Step>, id: EntityID, o: ClientID,
      sessions: seq<ServerSessions.Step>,
      a: ServerSessions.Seat, b: ServerSessions.Seat)
    requires t.Valid() && CanRun(t, Init(), steps) && RunNames(t, Init(), steps, id, o) && id > 0 && o != 0
    requires ServerSessions.CanRun(sessions)
    requires ServerSessions.Present(ServerSessions.Exec(sessions), a)
             && ServerSessions.Present(ServerSessions.Exec(sessions), b)
    ensures var w, s := Replication.Exec(t, Init(), steps), ServerSessions.Exec(sessions);
            && s.peers.Keys == s.known.Keys
            && (Answers(w, s, a, id) ==> PeerID(s, a) == o)
            && (Answers(w, s, a, id) && Answers(w, s, b, id) ==> a == b)
  {
    RunKeepsOwner(t, Init(), steps, id, o);
    var info := EntityInfo([], [], id, o, 0);
    ServerSessions.SingleMaster(sessions, info, a, b);
    ServerSessions.IdsConserved(sessions, HOST);
    var w, s := Replication.Exec(t, Init(), steps), ServerSessions.Exec(sessions);
    CopyNames(w, PeerID(s, a), id, o);
    CopyNames(w, PeerID(s, b), id, o);
    assert a.AtClient? ==> s.peers[a.peer] in s.peers.Values;
  }

  lemma {:induction false} CopyNames(w: World, c: ClientID, id: EntityID, o: ClientID)
    requires OneOwner(w, id, o)
    ensures HasCopy(w, c, id) ==> Names(Copy(w, c, id), id, o)
  {
    if c != HOST && c in w.clients {
      assert ClientNames(w.clients[c], id, o);
    }
  }

  /** And there is one: an owner that has converged, and been told its ID, answers that it is. */
  lemma {:induction false} OwnerClaims(w: World, c: ClientID, id: EntityID)
    requires c != HOST && c in w.clients && Converges(w, c) && w.clients[c].inflight == []
    requires id in w.HostView() && w.HostView()[id].ownerID == c
    ensures Claims(w, c, c, id)
  {
    assert id in Live(w.clients[c].scene) && Live(w.clients[c].scene)[id] == w.HostView()[id];
  }

  // ----- two owners

  function Delivers(c: ClientID, n: nat): (steps: seq<Step>)
    ensures |steps| == n && forall i :: 0 <= i < n ==> steps[i] == Deliver(c)
  {
    seq(n, _ => Deliver(c))
  }

  lemma {:induction false} DeliverAll(t: Types, w: World, c: ClientID)
    requires t.Valid() && c in w.clients
    ensures CanRun(t, w, Delivers(c, |w.clients[c].inflight|))
    ensures var k := w.clients[c];
            Replication.Exec(t, w, Delivers(c, |k.inflight|))
            == w.(clients := w.clients[c := Client(HandleAll(k.scene, k.inflight), [], k.synced)])
    decreases |w.clients[c].inflight|
  {
    var k := w.clients[c];
    var steps := Delivers(c, |k.inflight|);
    if k.inflight == [] {
      assert w.clients[c := Client(k.scene, [], k.synced)] == w.clients;
    } else {
      var next := Apply(t, w, Deliver(c));
      assert steps[1..] == Delivers(c, |next.clients[c].inflight|);
      DeliverAll(t, next, c);
    }
  }

  /** Whoever asks for the ID of an entity makes a second master: the requester is the owner by its copy as soon
      as all on its way has arrived, and the old owner still is by its own, until the creation arrives there
      too. */
  lemma {:induction false} ReplacementSplits(t: Types, w: World, info: EntityInfo, a: ClientID, b: ClientID)
      returns (steps: seq<Step>)
    requires t.Valid() && HostInv(w.host) && t.Accepts(info) && t.Covers(info) && info.ID > 0
    requires a >= HOST && a != b && b != HOST && (a == HOST || a in w.clients)
    requires Claims(w, b, b, info.ID)
    ensures |steps| >= 1 && steps[0] == Ask(a, ForCreation(info))
            && (forall i :: 1 <= i < |steps| ==> steps[i] == Deliver(a))
    ensures a != HOST ==> |steps| == 1 + |Apply(t, w, Ask(a, ForCreation(info))).clients[a].inflight|
    ensures CanRun(t, w, steps)
    ensures var after := Replication.Exec(t, w, steps); Claims(after, a, a, info.ID) && Claims(after, b, b, info.ID)
  {
    var ask := Ask(a, ForCreation(info));
    var next := Apply(t, w, ask);
    RequestSent(t, w, info, a);
    var delivers := if a == HOST then [] else Delivers(a, |next.clients[a].inflight|);
    if a != HOST {
      DeliverAll(t, next, a);
    }
    RunAfter(t, w, ask, delivers);
    steps := [ask] + delivers;
  }

  lemma {:induction false} RunAfter(t: Types, w: World, step: Step, steps: seq<Step>)
    requires t.Valid() && Enabled(t, w, step) && CanRun(t, Apply(t, w, step), steps)
    ensures CanRun(t, w, [step] + steps)
    ensures Replication.Exec(t, w, [step] + steps) == Replication.Exec(t, Apply(t, w, step), steps)
  {
    assert ([step] + steps)[1..] == steps;
  }

  /** What it is that arrives */
  lemma {:induction false} RequestSent(t: Types, w: World, info: EntityInfo, a: ClientID)
    requires t.Valid() && HostInv(w.host) && t.Accepts(info) && t.Covers(info) && info.ID > 0 && a >= HOST
    ensures var next := Apply(t, w, Ask(a, ForCreation(info)));
            var owned := Entity(info.(ownerID := a), false);
            && info.ID in next.host.scene && next.host.scene[info.ID] == owned
            && next.clients.Keys == w.clients.Keys
            && (forall c :: c in w.clients ==>
                  && next.clients[c].scene == w.clients[c].scene
                  && var got := HandleAll(next.clients[c].scene, next.clients[c].inflight);
                      info.ID in got && got[info.ID] == owned)
  {
    var asked := info.(ownerID := a);
    var forest, end := CreateShape(t, w.host.nextID, asked);
    var ms := Creations(forest + [asked]);
    RootLast(w.host.scene, forest, asked);
    forall c | c in w.clients
      ensures HandleAll(w.clients[c].scene, w.clients[c].inflight + ms)
           == HandleAll(HandleAll(w.clients[c].scene, w.clients[c].inflight),
               Creations(forest))[asked.ID := Entity(asked, false)]
    {
      HandleAllSplits(w.clients[c].scene, w.clients[c].inflight, ms);
      RootLast(HandleAll(w.clients[c].scene, w.clients[c].inflight), forest, asked);
    }
  }

  // ----- a run that ends with two

  lemma {:induction false} RunsJoin(t: Types, w: World, first: seq<Step>, second: seq<Step>)
    requires t.Valid() && CanRun(t, w, first) && CanRun(t, Replication.Exec(t, w, first), second)
    ensures CanRun(t, w, first + second)
    ensures Replication.Exec(t, w, first + second) == Replication.Exec(t, Replication.Exec(t, w, first), second)
    decreases |first|
  {
    if first == [] {
      assert first + second == second;
    } else {
      assert (first + second)[1..] == first[1..] + second;
      RunsJoin(t, Apply(t, w, first[0]), first[1..], second);
    }
  }

  /** Client 3 asks for an entity and gets it. */
  lemma {:induction false} OwnerFirst(t: Types, info: EntityInfo) returns (steps: seq<Step>)
    requires t == Plain([1]) && info == EntityInfo([1], [1], 0, 0, 0)
    ensures steps == [Join(2, map[]), Join(3, map[]), Ask(3, ForCreation(info)), Deliver(3)] && CanRun(t, Init(), steps)
    ensures var w := Replication.Exec(t, Init(), steps); 2 in w.clients && HostInv(w.host) && Claims(w, 3, 3, 1)
    ensures |Replication.Exec(t, Init(), steps).clients[2].inflight| == 1
  {
    var joins := [Join(2, map[]), Join(3, map[])];
    TwoSteps(t, Init(), joins[0], joins[1]);
    var w := Replication.Exec(t, Init(), joins);
    CreatedPlain([1], w.host, info.(ownerID := 3));
    TwoSteps(t, w, Ask(3, ForCreation(info)), Deliver(3));
    RunsJoin(t, Init(), joins, [Ask(3, ForCreation(info)), Deliver(3)]);
    steps := joins + [Ask(3, ForCreation(info)), Deliver(3)];
    Replication.RunKeepsInv(t, Init(), steps);
  }

  lemma {:induction false} SessionOneMore(steps: seq<ServerSessions.Step>, step: ServerSessions.Step)
    requires ServerSessions.CanRun(steps) && ServerSessions.Enabled(ServerSessions.Exec(steps), step)
    ensures ServerSessions.CanRun(steps + [step])
    ensures ServerSessions.Exec(steps + [step]) == ServerSessions.Apply(ServerSessions.Exec(steps), step)
  {
    var more := steps + [step];
    assert more[..|more| - 1] == steps;
  }

  /** A new peer is given the next ID. */
  lemma {:induction false} SessionConnect(steps: seq<ServerSessions.Step>, p: ServerSessions.Peer)
      returns (more: seq<ServerSessions.Step>)
    requires ServerSessions.CanRun(steps) && p !in ServerSessions.Exec(steps).peers
             && ServerSessions.Exec(steps).freeIds == []
    ensures ServerSessions.CanRun(more)
    ensures var s, t := ServerSessions.Exec(steps), ServerSessions.Exec(more);
            && t.peers == s.peers[p := s.nextUid] && t.known == s.known[p := 0]
            && t.nextUid == s.nextUid + 1 && t.freeIds == []
  {
    SessionOneMore(steps, ServerSessions.Connect(p));
    more := steps + [ServerSessions.Connect(p)];
  }

  lemma {:induction false} SessionInitialise(steps: seq<ServerSessions.Step>, p: ServerSessions.Peer)
      returns (more: seq<ServerSessions.Step>)
    requires ServerSessions.CanRun(steps) && p in ServerSessions.Exec(steps).peers
    ensures ServerSessions.CanRun(more)
    ensures var s, t := ServerSessions.Exec(steps), ServerSessions.Exec(more);
            t.peers == s.peers && t.known == s.known[p := s.peers[p]]
  {
    SessionOneMore(steps, ServerSessions.Initialise(p));
    more := steps + [ServerSessions.Initialise(p)];
  }

  lemma {:induction false} TwoConnected() returns (steps: seq<ServerSessions.Step>)
    ensures ServerSessions.CanRun(steps)
    ensures var s := ServerSessions.Exec(steps); s.peers == map[0 := 2, 1 := 3] && s.known == map[0 := 0, 1 := 0]
  {
    var one := SessionConnect([], 0);
    assert ServerSessions.Exec(one).peers == map[0 := 2];
    steps := SessionConnect(one, 1);
  }

  lemma {:induction false} OneTold() returns (steps: seq<ServerSessions.Step>)
    ensures ServerSessions.CanRun(steps)
    ensures var s := ServerSessions.Exec(steps); s.peers == map[0 := 2, 1 := 3] && s.known == map[0 := 2, 1 := 0]
  {
    var both := TwoConnected();
    steps := SessionInitialise(both, 0);
  }

  lemma {:induction false} TwoSessions() returns (steps: seq<ServerSessions.Step>)
    ensures ServerSessions.CanRun(steps)
    ensures var s := ServerSessions.Exec(steps); s.peers == map[0 := 2, 1 := 3] && s.known == s.peers
  {
    var one := OneTold();
    steps := SessionInitialise(one, 1);
  }

  lemma {:induction false} TwoCopies() returns (t: Types, steps: seq<Step>)
    ensures steps == [ Join(2, map[]), Join(3, map[]), Ask(3, ForCreation(EntityInfo([1], [1], 0, 0, 0))), Deliver(3),
                       Ask(2, ForCreation(EntityInfo([1], [2], 1, 0, 0))), Deliver(2), Deliver(2) ]
    ensures t.Valid() && CanRun(t, Init(), steps)
    ensures var w := Replication.Exec(t, Init(), steps); Claims(w, 2, 2, 1) && Claims(w, 3, 3, 1)
  {
    t := Plain([1]);
    var second := EntityInfo([1], [2], 1, 0, 0);
    var before := OwnerFirst(t, EntityInfo([1], [1], 0, 0, 0));
    var w := Replication.Exec(t, Init(), before);
    OneMoreInflight(w, second);
    var after := ReplacementSplits(t, w, second, 2, 3);
    RunsJoin(t, Init(), before, after);
    assert after == [Ask(2, ForCreation(second)), Deliver(2), Deliver(2)];
    steps := before + after;
  }

  lemma {:induction false} OneMoreInflight(w: World, info: EntityInfo)
    requires HostInv(w.host) && Plain([1]).Accepts(info) && 2 in w.clients && |w.clients[2].inflight| == 1
    ensures |Apply(Plain([1]), w, Ask(2, ForCreation(info))).clients[2].inflight| == 2
  {
    CreatedPlain([1], w.host, info.(ownerID := 2));
  }

  /** Two connected clients, both told their IDs, answer that they are the master of entity 1: the second has
      asked for its ID, and the first has not yet been told. */
  lemma {:induction false} TwoMasters() returns (t: Types, steps: seq<Step>, sessions: seq<ServerSessions.Step>)
    ensures steps == [ Join(2, map[]), Join(3, map[]), Ask(3, ForCreation(EntityInfo([1], [1], 0, 0, 0))), Deliver(3),
                       Ask(2, ForCreation(EntityInfo([1], [2], 1, 0, 0))), Deliver(2), Deliver(2) ]
    ensures t.Valid() && CanRun(t, Init(), steps) && ServerSessions.CanRun(sessions)
    ensures var w, s := Replication.Exec(t, Init(), steps), ServerSessions.Exec(sessions);
            && s.peers == map[0 := 2, 1 := 3] && s.peers.Keys == s.known.Keys
            && Answers(w, s, ServerSessions.AtClient(0), 1) && Answers(w, s, ServerSessions.AtClient(1), 1)
  {
    t, steps := TwoCopies();
    sessions := TwoSessions();
  }
}
