/** Client IDs and the server's event queue: how IDs are issued and recycled, and in what order the
    events of a client reach the game. Three threads take part, each step of which is atomic here: the
    transport captures what peers do, the network thread hands captured events to the server's queue,
    and the game thread emits queued packets. */
module ServerSessions {
  import opened Entities

  type Peer = nat

  datatype Event = Connected(id: ClientID) | Data(id: ClientID) | Disconnected(id: ClientID)

  const FIRST_UID: ClientID := 2

  /** The transport's table of peers with the ID each was given, the ID each peer believes to have (0
      before its CLIENT_INITIALIZED arrives), the allocator, the two queues, the connected clients as the
      network thread knows them, everything emitted so far, and the most IDs ever out at once. */
  datatype Server = Server(
    nextUid: ClientID,
    freeIds: seq<ClientID>,
    peers: map<Peer, ClientID>,
    known: map<Peer, ClientID>,
    captured: seq<Event>,
    queued: seq<Event>,
    connected: set<ClientID>,
    emitted: seq<Event>,
    peak: nat)
  {
    /** Everything that has happened, in order */
    function Trace(): seq<Event> {
      emitted + queued + captured
    }

    /** IDs whose disconnection has not reached the game yet */
    function Pending(): seq<ClientID> {
      Departures(queued + captured)
    }

    function Out(): nat {
      |peers| + |Pending()|
    }
  }

  function Init(): Server {
    Server(FIRST_UID, [], map[], map[], [], [], {}, [], 0)
  }

  function Departures(events: seq<Event>): (ids: seq<ClientID>) {
    if events == [] then []
    else
      var last := events[|events| - 1];
      Departures(events[..|events| - 1]) + if last.Disconnected? then [last.id] else []
  }

  // ----- the steps

  datatype Step =
    | Connect(peer: Peer)     // transport: client_init, then the CONNECT event
    | Initialise(peer: Peer)  // at the client: CLIENT_INITIALIZED arrives
    | Receive(peer: Peer)     // transport: a data packet of the peer
    | Disconnect(peer: Peer)  // transport: the peer is gone
    | Consume                 // network thread: one captured event becomes a queued packet
    | Emit                    // game thread: one queued packet is emitted to the handlers

  predicate Enabled(s: Server, step: Step) {
    match step
    case Connect(peer) => peer !in s.peers
    case Initialise(peer) => peer in s.peers
    case Receive(peer) => peer in s.peers
    case Disconnect(peer) => peer in s.peers
    case Consume => s.captured != []
    case Emit => s.queued != []
  }

  /** getNextUID */
  function NextUID(s: Server): ClientID {
    if s.freeIds == [] then s.nextUid else s.freeIds[0]
  }

  function AfterNextUID(s: Server): Server {
    if s.freeIds == [] then s.(nextUid := s.nextUid + 1) else s.(freeIds := s.freeIds[1..])
  }

  function WithPeak(s: Server): Server {
    s.(peak := if s.Out() > s.peak then s.Out() else s.peak)
  }

  function Apply(s: Server, step: Step): Server
    requires Enabled(s, step)
  {
    match step
    case Connect(peer) =>
      var id := NextUID(s);
      WithPeak(AfterNextUID(s).(
        peers := s.peers[peer := id], known := s.known[peer := 0], captured := s.captured + [Connected(id)]))
    case Initialise(peer) => s.(known := s.known[peer := s.peers[peer]])
    case Receive(peer) => s.(captured := s.captured + [Data(s.peers[peer])])
    case Disconnect(peer) =>
      s.(peers := s.peers - {peer}, known := s.known - {peer}, captured := s.captured + [Disconnected(s.peers[peer])])
    case Consume =>
      var e := s.captured[0];
      s.(captured := s.captured[1..], queued := s.queued + [e],
         connected := match e
                      case Connected(id) => s.connected + {id}
                      case Data(_) => s.connected
                      case Disconnected(id) => s.connected - {id})
    case Emit =>
      var e := s.queued[0];
      s.(queued := s.queued[1..], emitted := s.emitted + [e],
         freeIds := if e.Disconnected? then s.freeIds + [e.id] else s.freeIds)
  }

  // ----- sessions

  datatype Session = Closed | Open | Broken

  function After(session: Session, e: Event, id: ClientID): Session {
    if e.id != id then session
    else
      match (session, e)
      case (Closed, Connected(_)) => Open
      case (Open, Data(_)) => Open
      case (Open, Disconnected(_)) => Closed
      case _ => Broken
  }

  /** Where a trace leaves the client with this ID: sessions are a connection, data, a disconnection. */
  function SessionOf(trace: seq<Event>, id: ClientID): Session {
    if trace == [] then Closed else After(SessionOf(trace[..|trace| - 1], id), trace[|trace| - 1], id)
  }

  lemma {:induction false} SessionOfSplit(a: seq<Event>, b: seq<Event>, id: ClientID)
    ensures SessionOf(a + b, id) == Resume(SessionOf(a, id), b, id)
    decreases |b|
  {
    if b == [] {
      assert a + b == a;
    } else {
      var n := |b| - 1;
      assert (a + b)[..|a + b| - 1] == a + b[..n];
      SessionOfSplit(a, b[..n], id);
    }
  }

  function Resume(session: Session, trace: seq<Event>, id: ClientID): Session {
    if trace == [] then session else After(Resume(session, trace[..|trace| - 1], id), trace[|trace| - 1], id)
  }

  lemma {:induction false} BrokenStays(trace: seq<Event>, id: ClientID)
    ensures Resume(Broken, trace, id) == Broken
    decreases |trace|
  {
    if trace == [] {
    } else {
      BrokenStays(trace[..|trace| - 1], id);
    }
  }

  lemma PrefixSound(a: seq<Event>, b: seq<Event>, id: ClientID)
    requires SessionOf(a + b, id) != Broken
    ensures SessionOf(a, id) != Broken
  {
    SessionOfSplit(a, b, id);
    if SessionOf(a, id) == Broken {
      BrokenStays(b, id);
    }
  }

  /** A DISCONNECTED of this ID lies strictly between positions i and j. */
  ghost predicate EndedBetween(trace: seq<Event>, id: ClientID, i: int, j: int)
    requires 0 <= i <= j <= |trace|
  {
    exists k :: i < k < j && trace[k] == Disconnected(id)
  }

  /** Position i is a CONNECTED of this ID whose session has not ended before position j. */
  ghost predicate OpenSince(trace: seq<Event>, id: ClientID, i: int, j: int) {
    0 <= i < j <= |trace| && trace[i] == Connected(id) && !EndedBetween(trace, id, i, j)
  }

  lemma OpenOneMore(trace: seq<Event>, n: nat, id: ClientID, i: int)
    requires n < |trace| && i < n
    ensures OpenSince(trace, id, i, n + 1) <==> OpenSince(trace, id, i, n) && trace[n] != Disconnected(id)
  {
    if 0 <= i && EndedBetween(trace, id, i, n + 1) {
      var k :| i < k < n + 1 && trace[k] == Disconnected(id);
    }
  }

  /** In a sound trace the session of an ID is open at a position exactly when some connection before it
      is still open there. */
  lemma {:induction false} OpenExactly(trace: seq<Event>, n: nat, id: ClientID)
    requires n <= |trace| && SessionOf(trace[..n], id) != Broken
    ensures SessionOf(trace[..n], id) == Open <==> exists i :: OpenSince(trace, id, i, n)
    decreases n
  {
    if n == 0 {
    } else {
      var m := n - 1;
      assert trace[..n][..m] == trace[..m];
      assert SessionOf(trace[..n], id) == After(SessionOf(trace[..m], id), trace[m], id);
      OpenExactly(trace, m, id);
      if SessionOf(trace[..n], id) == Open {
        var i := if trace[m] == Connected(id) then m else var i :| OpenSince(trace, id, i, m); i;
        if i < m {
          OpenOneMore(trace, m, id, i);
        }
        assert OpenSince(trace, id, i, n);
      } else if exists i :: OpenSince(trace, id, i, n) {
        var i :| OpenSince(trace, id, i, n);
        if i < m {
          OpenOneMore(trace, m, id, i);
        }
      }
    }
  }

  /** In a sound trace, nothing is open where a connection is made, and something is at any other event. */
  lemma SessionsOrdered(trace: seq<Event>, id: ClientID, j: nat)
    requires SessionOf(trace, id) != Broken && j < |trace| && trace[j].id == id
    ensures (exists i :: OpenSince(trace, id, i, j)) <==> !trace[j].Connected?
  {
    assert trace == trace[..j + 1] + trace[j + 1..];
    PrefixSound(trace[..j + 1], trace[j + 1..], id);
    assert trace[..j + 1][..j] == trace[..j];
    OpenExactly(trace, j, id);
  }

  // ----- the invariant

  function Issued(next: ClientID): (ids: set<ClientID>)
    ensures forall id :: id in ids <==> FIRST_UID <= id < next
  {
    if next <= FIRST_UID then {} else Issued(next - 1) + {next - 1}
  }

  lemma {:induction false} IssuedCount(next: ClientID)
    requires next >= FIRST_UID
    ensures |Issued(next)| == next - FIRST_UID
    decreases next
  {
    if next == FIRST_UID {
      assert Issued(next) == {};
    } else {
      IssuedCount(next - 1);
      assert Issued(next) == Issued(next - 1) + {next - 1};
    }
  }

  /** Every ID issued so far is in exactly one place, once: assigned to one peer, on its way out in one
      pending DISCONNECTED, or free. */
  ghost predicate Conserved(s: Server) {
    multiset(s.peers.Values) + multiset(s.Pending()) + multiset(s.freeIds) == multiset(Issued(s.nextUid))
  }

  ghost predicate Injective(peers: map<Peer, ClientID>) {
    forall p, q :: p in peers && q in peers && peers[p] == peers[q] ==> p == q
  }

  ghost predicate IdsOk(s: Server) {
    && s.nextUid >= FIRST_UID
    && Injective(s.peers)
    && Conserved(s)
    && s.nextUid - FIRST_UID == s.peak
  }

  ghost predicate KnownOk(s: Server) {
    && s.known.Keys == s.peers.Keys
    && forall p :: p in s.peers ==> s.known[p] == 0 || s.known[p] == s.peers[p]
  }

  /** Sessions are well formed, and open exactly for the IDs that a peer holds. */
  ghost predicate SessionsOk(s: Server) {
    forall id :: SessionOkAt(s, id)
  }

  predicate SessionOkAt(s: Server, id: ClientID) {
    SessionOf(s.Trace(), id) == if id in s.peers.Values then Open else Closed
  }

  /** The network thread's connected clients are those whose session its packets leave open. */
  ghost predicate ConnectedOk(s: Server) {
    forall id :: ConnectedOkAt(s, id)
  }

  predicate ConnectedOkAt(s: Server, id: ClientID) {
    id in s.connected <==> SessionOf(s.emitted + s.queued, id) == Open
  }

  ghost predicate Inv(s: Server) {
    IdsOk(s) && KnownOk(s) && SessionsOk(s) && ConnectedOk(s)
  }

  lemma InitInv()
    ensures Inv(Init())
  {
    assert Init().peers.Values == {};
    assert forall id :: SessionOkAt(Init(), id) && ConnectedOkAt(Init(), id);
    assert Issued(FIRST_UID) == {};
  }

  lemma {:induction false} ValuesCount(peers: map<Peer, ClientID>)
    requires Injective(peers)
    ensures |peers.Values| == |peers|
    decreases |peers|
  {
    if |peers| == 0 {
      assert peers.Values == {};
    } else {
      var p :| p in peers;
      var rest := peers - {p};
      ValuesWithout(peers, p);
      ValuesCount(rest);
    }
  }

  lemma ValuesWithout(peers: map<Peer, ClientID>, p: Peer)
    requires Injective(peers) && p in peers
    ensures Injective(peers - {p})
    ensures peers[p] !in (peers - {p}).Values
    ensures peers.Values == (peers - {p}).Values + {peers[p]}
    ensures |peers - {p}| == |peers| - 1
  {
    var rest := peers - {p};
    assert rest.Keys == peers.Keys - {p};
    forall id | id in peers.Values
      ensures id in rest.Values + {peers[p]}
    {
      var q :| q in peers && peers[q] == id;
      if q != p {
        assert q in rest && rest[q] == id;
      }
    }
  }

  lemma ValuesWith(peers: map<Peer, ClientID>, p: Peer, id: ClientID)
    requires Injective(peers) && p !in peers && id !in peers.Values
    ensures Injective(peers[p := id])
    ensures peers[p := id].Values == peers.Values + {id}
    ensures |peers[p := id]| == |peers| + 1
  {
    var more := peers[p := id];
    assert more - {p} == peers;
    assert forall q :: q in peers ==> peers[q] in peers.Values;
    ValuesWithout(more, p);
  }

  /** The law of conservation, counted */
  lemma OutCount(s: Server)
    requires s.nextUid >= FIRST_UID && Injective(s.peers) && Conserved(s)
    ensures s.Out() + |s.freeIds| == s.nextUid - FIRST_UID
  {
    ValuesCount(s.peers);
    IssuedCount(s.nextUid);
    assert |multiset(s.peers.Values) + multiset(s.Pending()) + multiset(s.freeIds)| == |multiset(Issued(s.nextUid))|;
  }

  lemma DeparturesSnoc(events: seq<Event>, e: Event)
    ensures Departures(events + [e]) == Departures(events) + if e.Disconnected? then [e.id] else []
  {
    assert (events + [e])[..|events + [e]| - 1] == events;
  }

  lemma {:induction false} DeparturesHead(events: seq<Event>)
    requires events != []
    ensures Departures(events) == (if events[0].Disconnected? then [events[0].id] else []) + Departures(events[1..])
    decreases |events|
  {
    var n := |events| - 1;
    if n == 0 {
      assert events[1..] == [] && events[..n] == [];
    } else {
      DeparturesHead(events[..n]);
      assert events[..n][1..] == events[1..][..n - 1];
    }
  }

  // ----- what every step keeps

  lemma TraceSnoc(s: Server, t: Server, e: Event)
    requires t.emitted == s.emitted && t.queued == s.queued && t.captured == s.captured + [e]
    ensures t.Trace() == s.Trace() + [e]
    ensures t.Pending() == s.Pending() + if e.Disconnected? then [e.id] else []
  {
    assert t.Trace() == s.Trace() + [e];
    assert t.queued + t.captured == s.queued + s.captured + [e];
    DeparturesSnoc(s.queued + s.captured, e);
  }

  lemma SessionSnoc(trace: seq<Event>, e: Event, id: ClientID)
    ensures SessionOf(trace + [e], id) == After(SessionOf(trace, id), e, id)
  {
    assert (trace + [e])[..|trace|] == trace;
  }

  lemma FirstFree(ids: seq<ClientID>)
    requires ids != []
    ensures multiset(ids) == multiset{ids[0]} + multiset(ids[1..])
  {
    assert ids == [ids[0]] + ids[1..];
  }

  lemma NextUIDFresh(s: Server)
    requires IdsOk(s)
    ensures NextUID(s) !in s.peers.Values && NextUID(s) >= FIRST_UID
  {
    var id := NextUID(s);
    var all := multiset(Issued(s.nextUid));
    assert all[id] == multiset(s.peers.Values)[id] + multiset(s.Pending())[id] + multiset(s.freeIds)[id];
    if s.freeIds != [] {
      FirstFree(s.freeIds);
    }
    assert multiset(s.peers.Values)[id] == 0;
  }

  /** The ID given out leaves the free ones, or is the next never issued. */
  lemma NextUIDMoves(s: Server)
    requires IdsOk(s)
    ensures var t := AfterNextUID(s);
            multiset{NextUID(s)} + multiset(t.freeIds) + multiset(Issued(s.nextUid))
            == multiset(s.freeIds) + multiset(Issued(t.nextUid))
  {
    if s.freeIds == [] {
      assert Issued(s.nextUid + 1) == Issued(s.nextUid) + {s.nextUid};
    } else {
      FirstFree(s.freeIds);
    }
  }

  lemma Rebalance(taken: multiset<ClientID>, pending: multiset<ClientID>, free: multiset<ClientID>,
      all: multiset<ClientID>,
                  free': multiset<ClientID>, all': multiset<ClientID>, id: ClientID)
    requires taken + pending + free == all
    requires multiset{id} + free' + all == free + all'
    ensures taken + multiset{id} + pending + free' == all'
  {
    forall x: ClientID
      ensures (taken + multiset{id} + pending + free')[x] == all'[x]
    {
      assert (multiset{id} + free' + all)[x] == (free + all')[x];
      assert (taken + pending + free)[x] == all[x];
    }
  }

  lemma ConnectKeepsIds(s: Server, peer: Peer)
    requires IdsOk(s) && peer !in s.peers
    ensures IdsOk(Apply(s, Connect(peer)))
    ensures Apply(s, Connect(peer)).peers.Values == s.peers.Values + {NextUID(s)}
  {
    var id := NextUID(s);
    var t := Apply(s, Connect(peer));
    ConnectConserves(s, peer);
    OutCount(s);
    OutCount(t);
  }

  lemma ConnectConserves(s: Server, peer: Peer)
    requires IdsOk(s) && peer !in s.peers
    ensures var t := Apply(s, Connect(peer));
            && t.nextUid >= FIRST_UID && Injective(t.peers) && Conserved(t)
            && t.peers.Values == s.peers.Values + {NextUID(s)} && |t.peers| == |s.peers| + 1
                && t.Pending() == s.Pending()
  {
    var id := NextUID(s);
    var t := Apply(s, Connect(peer));
    NextUIDFresh(s);
    NextUIDMoves(s);
    ValuesWith(s.peers, peer, id);
    TraceSnoc(s, t, Connected(id));
    assert multiset(t.peers.Values) == multiset(s.peers.Values) + multiset{id};
    Rebalance(multiset(s.peers.Values), multiset(s.Pending()), multiset(s.freeIds), multiset(Issued(s.nextUid)),
              multiset(t.freeIds), multiset(Issued(t.nextUid)), id);
  }

  lemma DisconnectKeepsIds(s: Server, peer: Peer)
    requires IdsOk(s) && peer in s.peers
    ensures IdsOk(Apply(s, Disconnect(peer)))
    ensures Apply(s, Disconnect(peer)).peers.Values == s.peers.Values - {s.peers[peer]}
    ensures s.peers[peer] in s.peers.Values
  {
    var id := s.peers[peer];
    var t := Apply(s, Disconnect(peer));
    ValuesWithout(s.peers, peer);
    TraceSnoc(s, t, Disconnected(id));
    WithoutOne(s.peers.Values, t.peers.Values, id);
    assert multiset(t.Pending()) == multiset(s.Pending()) + multiset{id};
  }

  lemma WithoutOne(all: set<ClientID>, rest: set<ClientID>, id: ClientID)
    requires all == rest + {id} && id !in rest
    ensures multiset(all) == multiset(rest) + multiset{id} && rest == all - {id}
  {
  }

  lemma EmitKeepsIds(s: Server)
    requires IdsOk(s) && s.queued != []
    ensures IdsOk(Apply(s, Emit))
  {
    var e := s.queued[0];
    var t := Apply(s, Emit);
    DeparturesHead(s.queued + s.captured);
    assert (s.queued + s.captured)[1..] == t.queued + t.captured;
    if e.Disconnected? {
      assert multiset(s.Pending()) == multiset{e.id} + multiset(t.Pending());
      assert multiset(t.freeIds) == multiset(s.freeIds) + multiset{e.id};
    } else {
      assert s.Pending() == t.Pending();
    }
  }

  /** An event at the end of the trace that fits the session it belongs to */
  lemma SnocKeepsSessions(s: Server, t: Server, e: Event)
    requires t.emitted == s.emitted && t.queued == s.queued && t.captured == s.captured + [e]
             && t.connected == s.connected
    requires SessionsOk(s) && ConnectedOk(s)
    requires match e
             case Connected(id) => id !in s.peers.Values && t.peers.Values == s.peers.Values + {id}
             case Data(id) => id in s.peers.Values && t.peers == s.peers
             case Disconnected(id) => id in s.peers.Values && t.peers.Values == s.peers.Values - {id}
    ensures SessionsOk(t) && ConnectedOk(t)
  {
    TraceSnoc(s, t, e);
    forall id
      ensures SessionOkAt(t, id)
    {
      assert SessionOkAt(s, id);
      SessionSnoc(s.Trace(), e, id);
    }
    forall id
      ensures ConnectedOkAt(t, id)
    {
      assert ConnectedOkAt(s, id);
    }
  }

  lemma ConsumeKeepsInv(s: Server)
    requires Inv(s) && s.captured != []
    ensures Inv(Apply(s, Consume))
  {
    var e := s.captured[0];
    var t := Apply(s, Consume);
    assert s.captured == [e] + s.captured[1..];
    assert t.Trace() == s.Trace();
    assert t.queued + t.captured == s.queued + s.captured;
    forall id
      ensures SessionOkAt(t, id) && ConnectedOkAt(t, id)
    {
      assert SessionOkAt(s, id) && ConnectedOkAt(s, id);
      var before := s.emitted + s.queued;
      assert t.emitted + t.queued == before + [e];
      SessionSnoc(before, e, id);
      assert SessionOf(before + [e], id) == After(SessionOf(before, id), e, id);
      assert s.Trace() == before + [e] + s.captured[1..];
      PrefixSound(before + [e], s.captured[1..], id);
    }
  }

  lemma EmitKeepsSessions(s: Server)
    requires SessionsOk(s) && ConnectedOk(s) && s.queued != []
    ensures SessionsOk(Apply(s, Emit)) && ConnectedOk(Apply(s, Emit))
  {
    var t := Apply(s, Emit);
    assert s.queued == [s.queued[0]] + s.queued[1..];
    assert t.Trace() == s.Trace();
    assert t.emitted + t.queued == s.emitted + s.queued;
    forall id
      ensures SessionOkAt(t, id) && ConnectedOkAt(t, id)
    {
      assert SessionOkAt(s, id) && ConnectedOkAt(s, id);
    }
  }

  lemma ConnectKeepsInv(s: Server, peer: Peer)
    requires Inv(s) && peer !in s.peers
    ensures Inv(Apply(s, Connect(peer)))
  {
    NextUIDFresh(s);
    ConnectKeepsIds(s, peer);
    SnocKeepsSessions(s, Apply(s, Connect(peer)), Connected(NextUID(s)));
    ConnectKeepsKnown(s, peer);
  }

  lemma ConnectKeepsKnown(s: Server, peer: Peer)
    requires KnownOk(s) && peer !in s.peers
    ensures KnownOk(Apply(s, Connect(peer)))
  {
  }

  lemma ReceiveKeepsInv(s: Server, peer: Peer)
    requires Inv(s) && peer in s.peers
    ensures Inv(Apply(s, Receive(peer)))
  {
    var e := Data(s.peers[peer]);
    assert s.peers[peer] in s.peers.Values;
    TraceSnoc(s, Apply(s, Receive(peer)), e);
    SnocKeepsSessions(s, Apply(s, Receive(peer)), e);
  }

  lemma DisconnectKeepsInv(s: Server, peer: Peer)
    requires Inv(s) && peer in s.peers
    ensures Inv(Apply(s, Disconnect(peer)))
  {
    DisconnectKeepsIds(s, peer);
    SnocKeepsSessions(s, Apply(s, Disconnect(peer)), Disconnected(s.peers[peer]));
    assert (s.peers - {peer}).Keys == (s.known - {peer}).Keys;
  }

  lemma EmitKeepsInv(s: Server)
    requires Inv(s) && s.queued != []
    ensures Inv(Apply(s, Emit))
  {
    EmitKeepsIds(s);
    EmitKeepsSessions(s);
  }

  lemma InitialiseKeepsInv(s: Server, peer: Peer)
    requires Inv(s) && peer in s.peers
    ensures Inv(Apply(s, Initialise(peer)))
  {
    var t := Apply(s, Initialise(peer));
    forall id
      ensures SessionOkAt(t, id) && ConnectedOkAt(t, id)
    {
      assert SessionOkAt(s, id) && ConnectedOkAt(s, id);
    }
  }

  lemma StepKeepsInv(s: Server, step: Step)
    requires Inv(s) && Enabled(s, step)
    ensures Inv(Apply(s, step))
  {
    match step
    case Connect(peer) => ConnectKeepsInv(s, peer);
    case Initialise(peer) => InitialiseKeepsInv(s, peer);
    case Receive(peer) => ReceiveKeepsInv(s, peer);
    case Disconnect(peer) => DisconnectKeepsInv(s, peer);
    case Consume => ConsumeKeepsInv(s);
    case Emit => EmitKeepsInv(s);
  }

  // ----- all runs

  /** Each step is possible when it is taken. */
  predicate CanRun(steps: seq<Step>)
    decreases |steps|, 0
  {
    steps == [] || (var n := |steps| - 1; CanRun(steps[..n]) && Enabled(Exec(steps[..n]), steps[n]))
  }

  function Exec(steps: seq<Step>): Server
    requires CanRun(steps)
    decreases |steps|, 1
  {
    if steps == [] then Init() else Apply(Exec(steps[..|steps| - 1]), steps[|steps| - 1])
  }

  lemma {:induction false} RunInv(steps: seq<Step>)
    requires CanRun(steps)
    ensures Inv(Exec(steps))
    decreases |steps|
  {
    if steps == [] {
      InitInv();
    } else {
      RunInv(steps[..|steps| - 1]);
      StepKeepsInv(Exec(steps[..|steps| - 1]), steps[|steps| - 1]);
    }
  }

  /** Conservation, spelled out: each issued ID is assigned, pending or free, never two of them and
      never twice; nothing else is, in particular not the host's ID; and as many IDs have been issued as
      were ever out at once. */
  lemma {:induction false} IdsConserved(steps: seq<Step>, id: ClientID)
    requires CanRun(steps)
    ensures var s := Exec(steps);
            && multiset(s.peers.Values)[id] + multiset(s.Pending())[id] + multiset(s.freeIds)[id]
               == (if FIRST_UID <= id < s.nextUid then 1 else 0)
            && (forall p, q :: p in s.peers && q in s.peers && s.peers[p] == s.peers[q] ==> p == q)
            && HOST !in s.peers.Values
            && s.nextUid - FIRST_UID == s.peak
            && s.Out() + |s.freeIds| == s.peak
  {
    RunInv(steps);
    var s := Exec(steps);
    OutCount(s);
    var all := multiset(s.peers.Values) + multiset(s.Pending()) + multiset(s.freeIds);
    assert all == multiset(Issued(s.nextUid));
    assert all[id] == multiset(s.peers.Values)[id] + multiset(s.Pending())[id] + multiset(s.freeIds)[id];
    assert multiset(Issued(s.nextUid))[HOST] == 0;
    assert all[HOST] == 0 && multiset(s.peers.Values)[HOST] == 0;
  }

  /** Over every run, what the game sees of one ID is a sequence of sessions: when an event is emitted a
      session is open, except when it is a CONNECTED, and then none is. So no session of a recycled ID
      begins before the previous one has been seen to end. */
  lemma EmittedSessions(steps: seq<Step>, j: nat)
    requires CanRun(steps) && j < |Exec(steps).emitted|
    ensures var seen := Exec(steps).emitted;
            (exists i :: OpenSince(seen, seen[j].id, i, j)) <==> !seen[j].Connected?
  {
    RunInv(steps);
    var s := Exec(steps);
    var id := s.emitted[j].id;
    assert s.Trace() == s.emitted + (s.queued + s.captured);
    assert SessionOkAt(s, id);
    PrefixSound(s.emitted, s.queued + s.captured, id);
    SessionsOrdered(s.emitted, id, j);
  }

  lemma {:induction false} QuietOrDeparts(session: Session, events: seq<Event>, id: ClientID)
    requires session != Broken && Resume(session, events, id) == Closed
    ensures id in Departures(events) || (session == Closed && forall i :: 0 <= i < |events| ==> events[i].id != id)
    decreases |events|
  {
    if events == [] {
    } else {
      var n := |events| - 1;
      var e := events[n];
      if e.id == id {
        assert Resume(session, events[..n], id) == Open && e.Disconnected?;
      } else {
        QuietOrDeparts(session, events[..n], id);
      }
    }
  }

  /** An ID is given out again only when the game has seen the whole of its last session: nothing of it
      is still in either queue. */
  lemma RecycledIdIsQuiet(steps: seq<Step>, i: nat)
    requires CanRun(steps) && i < |Exec(steps).freeIds|
    ensures var s := Exec(steps); var id := s.freeIds[i];
            && SessionOf(s.emitted, id) == Closed
            && (forall k :: 0 <= k < |s.queued| ==> s.queued[k].id != id)
            && (forall k :: 0 <= k < |s.captured| ==> s.captured[k].id != id)
  {
    RunInv(steps);
    var s := Exec(steps);
    FreeIsQuiet(s, i);
  }

  lemma FreeIsGone(s: Server, id: ClientID)
    requires IdsOk(s) && id in s.freeIds
    ensures id !in s.peers.Values && id !in s.Pending()
  {
    var all := multiset(Issued(s.nextUid));
    assert all[id] == multiset(s.peers.Values)[id] + multiset(s.Pending())[id] + multiset(s.freeIds)[id];
    assert multiset(s.freeIds)[id] > 0;
  }

  lemma FreeIsQuiet(s: Server, i: nat)
    requires Inv(s) && i < |s.freeIds|
    ensures var id := s.freeIds[i];
            && SessionOf(s.emitted, id) == Closed
            && (forall k :: 0 <= k < |s.queued| ==> s.queued[k].id != id)
            && (forall k :: 0 <= k < |s.captured| ==> s.captured[k].id != id)
  {
    var id := s.freeIds[i];
    FreeIsGone(s, id);
    var waiting := s.queued + s.captured;
    assert s.Trace() == s.emitted + waiting;
    assert SessionOkAt(s, id);
    SessionOfSplit(s.emitted, waiting, id);
    PrefixSound(s.emitted, waiting, id);
    QuietOrDeparts(SessionOf(s.emitted, id), waiting, id);
    forall k | 0 <= k < |s.queued|
      ensures s.queued[k].id != id
    {
      assert waiting[k] == s.queued[k];
    }
    forall k | 0 <= k < |s.captured|
      ensures s.captured[k].id != id
    {
      assert waiting[|s.queued| + k] == s.captured[k];
    }
  }

  // ----- mastership

  datatype Seat = AtHost | AtClient(peer: Peer)

  predicate Present(s: Server, seat: Seat) {
    seat.AtHost? || seat.peer in s.peers
  }

  /** The ID the client at this seat answers isOwner with */
  function SelfID(s: Server, seat: Seat): ClientID
    requires Present(s, seat) && s.peers.Keys == s.known.Keys
  {
    match seat
    case AtHost => HOST
    case AtClient(peer) => s.known[peer]
  }

  /** In every reachable state at most one connected peer takes itself for the master of a networked entity, and a
      client does so exactly if it is the owner and has been told its ID; only an entity without an owner is claimed,
      by every client that has not. */
  lemma SingleMaster(steps: seq<Step>, info: EntityInfo, a: Seat, b: Seat)
    requires CanRun(steps) && info.ID > 0
    requires var s := Exec(steps); Present(s, a) && Present(s, b)
    ensures Exec(steps).peers.Keys == Exec(steps).known.Keys
    ensures var s := Exec(steps);
            IsOwner(info, SelfID(s, a)) && IsOwner(info, SelfID(s, b)) ==>
              a == b || (info.ownerID == 0 && a.AtClient? && b.AtClient? && s.known[a.peer] == 0
                  && s.known[b.peer] == 0)
    ensures var s := Exec(steps);
            a.AtClient? ==> (IsOwner(info, SelfID(s, a)) <==>
                             if s.known[a.peer] == 0 then info.ownerID == 0 else s.peers[a.peer] == info.ownerID)
  {
    RunInv(steps);
    IdsConserved(steps, HOST);
    var s := Exec(steps);
    assert forall p :: p in s.peers ==> s.peers[p] in s.peers.Values;
  }
}
