/** The server object whose fields the three threads update, tied to the steps of ServerSessions. The
    dedicated server keeps and recycles IDs, and queues packets, in the same way. */
module ServerHostClass {
  import opened Entities
  import opened ServerSessions

  /** The network thread's loop: everything captured becomes queued packets. */
  function ConsumeAll(s: Server): Server
    decreases |s.captured|
  {
    if s.captured == [] then s else ConsumeAll(Apply(s, Consume))
  }

  /** The game thread's loop: everything queued is emitted. */
  function EmitAll(s: Server): Server
    decreases |s.queued|
  {
    if s.queued == [] then s else EmitAll(Apply(s, Emit))
  }

  lemma {:induction false} ConsumeAllMoves(s: Server)
    ensures var t := ConsumeAll(s);
            && t.captured == [] && t.queued == s.queued + s.captured
            && t.(captured := s.captured, queued := s.queued, connected := s.connected) == s
    decreases |s.captured|
  {
    if s.captured == [] {
      assert s.queued + [] == s.queued;
    } else {
      ConsumeAllMoves(Apply(s, Consume));
      assert s.queued + s.captured == s.queued + [s.captured[0]] + s.captured[1..];
    }
  }

  lemma {:induction false} ConsumeAllKeepsInv(s: Server)
    requires Inv(s)
    ensures Inv(ConsumeAll(s))
    decreases |s.captured|
  {
    if s.captured == [] {
    } else {
      ConsumeKeepsInv(s);
      ConsumeAllKeepsInv(Apply(s, Consume));
    }
  }

  lemma HeadFirst<T>(a: seq<T>, b: seq<T>)
    ensures b != [] ==> a + b == a + [b[0]] + b[1..]
  {
  }

  lemma {:induction false} EmitAllMoves(s: Server)
    ensures var t := EmitAll(s);
            && t.queued == [] && t.emitted == s.emitted + s.queued && t.freeIds == s.freeIds + Departures(s.queued)
            && t.(queued := s.queued, emitted := s.emitted, freeIds := s.freeIds) == s
    decreases |s.queued|
  {
    if s.queued == [] {
      assert s.emitted + [] == s.emitted && s.freeIds + [] == s.freeIds;
    } else {
      EmitAllMoves(Apply(s, Emit));
      DeparturesHead(s.queued);
      HeadFirst(s.emitted, s.queued);
      HeadFirst(s.freeIds, Departures(s.queued));
    }
  }

  lemma {:induction false} EmitAllKeepsInv(s: Server)
    requires Inv(s)
    ensures Inv(EmitAll(s))
    decreases |s.queued|
  {
    if s.queued == [] {
    } else {
      EmitKeepsInv(s);
      EmitAllKeepsInv(Apply(s, Emit));
    }
  }

  /** With nothing left to consume, the connected clients are exactly the peers of the transport. */
  lemma AllConnected(s: Server)
    requires Inv(s)
    ensures ConsumeAll(s).connected == s.peers.Values
  {
    ConsumeAllKeepsInv(s);
    ConsumeAllMoves(s);
    ConnectedArePeers(ConsumeAll(s));
  }

  lemma ConnectedArePeers(s: Server)
    requires SessionsOk(s) && ConnectedOk(s) && s.captured == []
    ensures s.connected == s.peers.Values
  {
    assert s.Trace() == s.emitted + s.queued;
    forall id
      ensures id in s.connected <==> id in s.peers.Values
    {
      assert SessionOkAt(s, id) && ConnectedOkAt(s, id);
    }
  }

  class ServerHost {
    var nextUid: ClientID
    var freeIds: seq<ClientID>
    var peers: map<Peer, ClientID>
    ghost var known: map<Peer, ClientID>
    var captured: seq<Event>
    var queued: seq<Event>
    var connected: set<ClientID>
    ghost var emitted: seq<Event>
    ghost var peak: nat

    ghost function State(): Server
      reads this
    {
      Server(nextUid, freeIds, peers, known, captured, queued, connected, emitted, peak)
    }

    ghost predicate Valid()
      reads this
    {
      Inv(State())
    }

    constructor ()
      ensures Valid() && State() == Init()
    {
      nextUid, freeIds := FIRST_UID, [];
      peers, known := map[], map[];
      captured, queued, connected := [], [], {};
      emitted, peak := [], 0;
      new;
      InitInv();
    }

    method GetNextUID() returns (id: ClientID)
      modifies this`nextUid, this`freeIds
      ensures id == NextUID(old(State())) && State() == AfterNextUID(old(State()))
    {
      if freeIds == [] {
        id := nextUid;
        nextUid := nextUid + 1;
      } else {
        id := freeIds[0];
        freeIds := freeIds[1..];
      }
    }

    /** A peer connects: it is given an ID, entered in the table, and its CONNECT event captured. */
    method ClientInit(peer: Peer) returns (id: ClientID)
      requires peer !in peers
      modifies this
      ensures State() == Apply(old(State()), Connect(peer)) && id == peers[peer]
    {
      id := GetNextUID();
      peers := peers[peer := id];
      known := known[peer := 0];
      captured := captured + [Connected(id)];
      peak := WithPeak(State()).peak;
    }

    method PushPacket(e: Event)
      modifies this`queued
      ensures queued == old(queued) + [e]
    {
      queued := queued + [e];
    }

    method ConsumeOne()
      requires captured != []
      modifies this`captured, this`queued, this`connected
      ensures State() == Apply(old(State()), Consume)
    {
      var e := captured[0];
      match e {
        case Connected(id) => connected := connected + {id};
        case Data(_) =>
        case Disconnected(id) => connected := connected - {id};
      }
      captured := captured[1..];
      PushPacket(e);
    }

    /** consume_events with the callbacks of processPackets */
    method ProcessPackets()
      modifies this`captured, this`queued, this`connected
      ensures State() == ConsumeAll(old(State()))
      ensures old(Valid()) ==> Valid() && connected == peers.Values
    {
      ghost var s := State();
      while captured != []
        invariant ConsumeAll(State()) == ConsumeAll(s)
        decreases |captured|
      {
        ConsumeOne();
      }
      if Inv(s) {
        ConsumeAllKeepsInv(s);
        AllConnected(s);
      }
    }

    /** The server's own handler, which frees the ID of a client that has left */
    method OnPacketReceived(e: Event)
      modifies this`freeIds, this`emitted
      ensures freeIds == (if e.Disconnected? then old(freeIds) + [e.id] else old(freeIds))
      ensures emitted == old(emitted) + [e]
    {
      if e.Disconnected? {
        freeIds := freeIds + [e.id];
      }
      emitted := emitted + [e];
    }

    method EmitOne()
      requires queued != []
      modifies this`queued, this`freeIds, this`emitted
      ensures State() == Apply(old(State()), Emit)
    {
      OnPacketReceived(queued[0]);
      queued := queued[1..];
    }

    /** update: drain the queue, emitting each packet before it is popped */
    method Update()
      modifies this`queued, this`freeIds, this`emitted
      ensures State() == EmitAll(old(State()))
      ensures old(Valid()) ==> Valid()
      ensures queued == [] && emitted == old(emitted + queued) && freeIds == old(freeIds) + Departures(old(queued))
    {
      ghost var s := State();
      while queued != []
        invariant EmitAll(State()) == EmitAll(s)
        decreases |queued|
      {
        EmitOne();
      }
      EmitAllMoves(s);
      if Inv(s) {
        EmitAllKeepsInv(s);
      }
    }
  }
}
