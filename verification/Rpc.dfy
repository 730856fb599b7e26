/** Entity RPCs from the call to the peers that execute them, through a host with any number of
    connected clients. */
module Rpc {
  import opened Entities

  datatype RpcType = Master | Remote | RemoteAndLocal | MasterAndRemote | Local | All

  /** RPCInfo: whether the caller runs the RPC itself, and whether it tells the server */
  function RpcInfo(kind: RpcType, owner: bool): (bool, bool) {
    match kind
    case Master => (owner, !owner)
    case Remote => (false, owner)
    case RemoteAndLocal => (owner, owner)
    case MasterAndRemote => (false, true)
    case Local => (true, false)
    case All => (true, true)
  }

  type Scene = map<EntityID, EntityInfo>

  /** The clients the server is connected to, everybody's scene, and the RPCs registered by all */
  datatype World = World(connected: seq<ClientID>, scenes: map<ClientID, Scene>, rpcs: map<Str, map<Str, RpcType>>) {
    predicate Valid() {
      && HOST !in connected
      && (forall i, j :: 0 <= i < j < |connected| ==> connected[i] != connected[j])
    }

    predicate Registered(kind: Str, name: Str) {
      kind in rpcs && name in rpcs[kind]
    }

    /** The peer has the entity, and the same idea of it as the packet. */
    predicate Agrees(peer: ClientID, info: EntityInfo) {
      peer in scenes && info.ID in scenes[peer] && scenes[peer][info.ID] == info
    }

    predicate IsPeer(peer: ClientID) {
      peer == HOST || peer in connected
    }
  }

  // ----- who executes, step by step

  /** The client's handler for ENTITY_RPC */
  function Received(w: World, peer: ClientID, info: EntityInfo): seq<ClientID> {
    if w.Agrees(peer, info) then [peer] else []
  }

  function SentToOne(w: World, to: ClientID, info: EntityInfo): seq<ClientID> {
    if to == HOST || to in w.connected then Received(w, to, info) else []
  }

  /** Over the first n connected clients */
  function SentToClients(w: World, n: nat, except: ClientID, info: EntityInfo): seq<ClientID>
    requires n <= |w.connected|
  {
    if n == 0 then []
    else
      SentToClients(w, n - 1, except, info)
      + if w.connected[n - 1] != except then Received(w, w.connected[n - 1], info) else []
  }

  function SentToAllExcept(w: World, except: ClientID, info: EntityInfo): seq<ClientID> {
    SentToClients(w, |w.connected|, except, info) + if except != HOST then Received(w, HOST, info) else []
  }

  /** The server's handler for ENTITY_RPC */
  function Routed(w: World, info: EntityInfo, kind: RpcType, sender: ClientID): seq<ClientID> {
    if !w.Agrees(HOST, info) then []
    else
      match kind
      case Local => []
      case Master => if info.ownerID == sender then [] else SentToOne(w, info.ownerID, info)
      case Remote => if info.ownerID == sender then SentToAllExcept(w, sender, info) else []
      case RemoteAndLocal => if info.ownerID == sender then SentToAllExcept(w, sender, info) else []
      case MasterAndRemote => SentToAllExcept(w, sender, info)
      case All => SentToAllExcept(w, sender, info)
  }

  /** RPCManager.call for an entity of the caller's scene */
  function Executions(w: World, caller: ClientID, info: EntityInfo, name: Str): seq<ClientID> {
    if !w.Registered(info.kind, name) then []
    else
      var kind := w.rpcs[info.kind][name];
      var (local, remote) := RpcInfo(kind, IsOwner(info, caller));
      (if remote then Routed(w, info, kind, caller) else []) + if local then [caller] else []
  }

  // ----- the same, as the objects do it

  class Cluster {
    var world: World
    var executed: seq<ClientID>

    constructor (w: World)
      ensures world == w && executed == []
    {
      world, executed := w, [];
    }

    method Receive(peer: ClientID, info: EntityInfo)
      modifies this`executed
      ensures executed == old(executed) + Received(world, peer, info)
    {
      if peer in world.scenes && info.ID in world.scenes[peer] {
        if info == world.scenes[peer][info.ID] {
          executed := executed + [peer];
        }
      }
    }

    method SendPacketToOneClient(to: ClientID, info: EntityInfo)
      modifies this`executed
      ensures executed == old(executed) + SentToOne(world, to, info)
    {
      if to != HOST {
        if to in world.connected {
          Receive(to, info);
        }
      } else {
        Receive(HOST, info);
      }
    }

    method SendPacketToAllExceptOneClient(except: ClientID, info: EntityInfo)
      modifies this`executed
      ensures executed == old(executed) + SentToAllExcept(world, except, info)
    {
      for i := 0 to |world.connected|
        invariant executed == old(executed) + SentToClients(world, i, except, info)
      {
        if world.connected[i] != except {
          Receive(world.connected[i], info);
        }
      }
      if except != HOST {
        Receive(HOST, info);
      }
    }

    method OnServerRpc(info: EntityInfo, name: Str, sender: ClientID)
      requires world.Registered(info.kind, name)
      modifies this`executed
      ensures executed == old(executed) + Routed(world, info, world.rpcs[info.kind][name], sender)
    {
      var kind := world.rpcs[info.kind][name];
      if HOST in world.scenes && info.ID in world.scenes[HOST] {
        if info == world.scenes[HOST][info.ID] {
          if kind == Local {
          } else if kind == Master {
            if info.ownerID != sender {
              SendPacketToOneClient(info.ownerID, info);
            }
          } else if kind == Remote || kind == RemoteAndLocal {
            if info.ownerID == sender {
              SendPacketToAllExceptOneClient(sender, info);
            }
          } else {
            SendPacketToAllExceptOneClient(sender, info);
          }
        }
      }
    }

    method Call(caller: ClientID, info: EntityInfo, name: Str)
      requires world.Agrees(caller, info)
      modifies this`executed
      ensures executed == old(executed) + Executions(world, caller, info, name)
    {
      if !world.Registered(info.kind, name) {
        return;
      }
      var (local, remote) := RpcInfo(world.rpcs[info.kind][name], IsOwner(info, caller));
      if remote {
        OnServerRpc(info, name, caller);
      }
      if local {
        Receive(caller, info);
      }
    }
  }

  // ----- what the documentation promises

  /** The peers that the comments on the RPC types name */
  predicate Documented(w: World, kind: RpcType, caller: ClientID, owner: ClientID, peer: ClientID) {
    w.IsPeer(peer) &&
    match kind
    case Master => peer == owner
    case Remote => caller == owner && peer != owner
    case RemoteAndLocal => caller == owner
    case MasterAndRemote => peer != caller
    case Local => peer == caller
    case All => true
  }

  /** The peers in whose scenes just this entity is */
  ghost function Sharing(w: World, info: EntityInfo): set<ClientID> {
    set peer | peer in w.scenes && (info.ID, info) in w.scenes[peer].Items
  }

  function One(b: bool): nat {
    if b then 1 else 0
  }

  lemma CountOfSum(a: seq<ClientID>, b: seq<ClientID>, peer: ClientID)
    ensures multiset(a + b)[peer] == multiset(a)[peer] + multiset(b)[peer]
  {
  }

  lemma CountReceived(w: World, to: ClientID, info: EntityInfo, peer: ClientID)
    ensures multiset(Received(w, to, info))[peer] == One(peer == to && w.Agrees(to, info))
  {
  }

  lemma {:induction false} SentToClientsCount(w: World, n: nat, except: ClientID, info: EntityInfo, peer: ClientID)
    requires w.Valid() && n <= |w.connected|
    ensures multiset(SentToClients(w, n, except, info))[peer]
            == One(peer in w.connected[..n] && peer != except && w.Agrees(peer, info))
  {
    if n == 0 {
    } else {
      SentToClientsCount(w, n - 1, except, info, peer);
      OneMoreCount(w, SentToClients(w, n - 1, except, info), n - 1, n, except, info, peer);
    }
  }

  lemma {:induction false} OneMoreCount(w: World, sent: seq<ClientID>, n: nat, m: nat, except: ClientID,
      info: EntityInfo, peer: ClientID)
    requires w.Valid() && n < |w.connected| && m == n + 1
    requires multiset(sent)[peer] == One(peer in w.connected[..n] && peer != except && w.Agrees(peer, info))
    ensures var last := w.connected[n];
            var tail := if last != except then Received(w, last, info) else [];
            multiset(sent + tail)[peer] == One(peer in w.connected[..m] && peer != except && w.Agrees(peer, info))
  {
    var last := w.connected[n];
    OneMoreClient(w, n, peer);
    CountReceived(w, last, info, peer);
    CountOfSum(sent, if last != except then Received(w, last, info) else [], peer);
  }

  lemma OneMoreClient(w: World, n: nat, peer: ClientID)
    requires w.Valid() && n < |w.connected|
    ensures peer in w.connected[..n + 1] <==> peer in w.connected[..n] || peer == w.connected[n]
    ensures w.connected[n] !in w.connected[..n]
  {
    assert w.connected[..n + 1] == w.connected[..n] + [w.connected[n]];
  }

  lemma SentToAllExceptCount(w: World, except: ClientID, info: EntityInfo, peer: ClientID)
    requires w.Valid()
    ensures multiset(SentToAllExcept(w, except, info))[peer]
            == One(w.IsPeer(peer) && peer != except && w.Agrees(peer, info))
  {
    SentToClientsCount(w, |w.connected|, except, info, peer);
    assert w.connected[..|w.connected|] == w.connected;
    CountReceived(w, HOST, info, peer);
    CountOfSum(SentToClients(w, |w.connected|, except, info), if except != HOST then Received(w, HOST, info)
        else [], peer);
  }

  lemma RoutedCount(w: World, info: EntityInfo, kind: RpcType, sender: ClientID, peer: ClientID)
    requires w.Valid() && w.IsPeer(sender)
    requires RpcInfo(kind, sender == info.ownerID).1
    ensures multiset(Routed(w, info, kind, sender))[peer]
            == One(peer != sender && Documented(w, kind, sender, info.ownerID, peer)
                && {HOST, peer} <= Sharing(w, info))
  {
    SentToAllExceptCount(w, sender, info, peer);
    CountReceived(w, info.ownerID, info, peer);
  }

  /** The two answers of RPCInfo: the caller runs the RPC if it is documented to, and tells the server if
      anybody else is. */
  lemma RpcInfoDocumented(w: World, kind: RpcType, caller: ClientID, owner: ClientID, peer: ClientID)
    requires w.IsPeer(caller)
    ensures RpcInfo(kind, caller == owner).0 <==> Documented(w, kind, caller, owner, caller)
    ensures peer != caller && Documented(w, kind, caller, owner, peer) ==> RpcInfo(kind, caller == owner).1
  {
  }

  /** Main theorem: whatever the scenes of the peers hold, a peer executes an entity RPC exactly once or not
      at all. If the RPC is registered the caller does if it is among the documented peers, any other if it is among
      them and both it and the host have the entity as the caller has it. */
  lemma DeliveryExact(w: World, caller: ClientID, info: EntityInfo, name: Str, peer: ClientID)
    requires w.Valid() && w.IsPeer(caller) && w.Agrees(caller, info) && info.ID >= 0
    ensures multiset(Executions(w, caller, info, name))[peer]
            == One(w.Registered(info.kind, name)
                   && Documented(w, w.rpcs[info.kind][name], caller, info.ownerID, peer)
                   && (peer == caller || {HOST, peer} <= Sharing(w, info)))
  {
    if w.Registered(info.kind, name) {
      var kind := w.rpcs[info.kind][name];
      var (local, remote) := RpcInfo(kind, IsOwner(info, caller));
      RpcInfoDocumented(w, kind, caller, info.ownerID, peer);
      var others := if remote then Routed(w, info, kind, caller) else [];
      if remote {
        RoutedCount(w, info, kind, caller, peer);
      }
      CountOfSum(others, if local then [caller] else [], peer);
    }
  }

  /** The same for a local entity, whose isOwner is always true: the caller executes what owners do, and if the
      host and others have just this entity too, as they may after a snapshot, the server still routes to them
      what is for everybody else, or what is for non-owners if the caller is the owner named. */
  lemma {:induction false} LocalDeliveryExact(w: World, caller: ClientID, info: EntityInfo, name: Str, peer: ClientID)
    requires w.Valid() && w.IsPeer(caller) && w.Agrees(caller, info) && info.ID < 0
    ensures multiset(Executions(w, caller, info, name))[peer]
            == One(w.Registered(info.kind, name)
                   && var kind := w.rpcs[info.kind][name];
                      if peer == caller then kind != Remote && kind != MasterAndRemote
                      else
                        && w.IsPeer(peer) && {HOST, peer} <= Sharing(w, info)
                        && RoutesLocal(kind, info.ownerID == caller))
  {
    if w.Registered(info.kind, name) {
      LocalCount(w, w.rpcs[info.kind][name], caller, info, peer);
    }
  }

  lemma {:induction false} LocalCount(w: World, kind: RpcType, caller: ClientID, info: EntityInfo, peer: ClientID)
    requires w.Valid() && w.IsPeer(caller)
    ensures multiset((if RpcInfo(kind, true).1 then Routed(w, info, kind, caller) else [])
                     + if RpcInfo(kind, true).0 then [caller] else [])[peer]
            == One(if peer == caller then kind != Remote && kind != MasterAndRemote
                   else
                     && w.IsPeer(peer) && {HOST, peer} <= Sharing(w, info)
                     && RoutesLocal(kind, info.ownerID == caller))
  {
    var (local, remote) := RpcInfo(kind, true);
    if remote {
      LocalRoutedCount(w, info, kind, caller, peer);
    }
    CountOfSum(if remote then Routed(w, info, kind, caller) else [], if local then [caller] else [], peer);
  }

  lemma {:induction false} LocalRoutedCount(w: World, info: EntityInfo, kind: RpcType, sender: ClientID, peer: ClientID)
    requires w.Valid() && w.IsPeer(sender) && kind != Master
    ensures multiset(Routed(w, info, kind, sender))[peer]
            == One(peer != sender && w.IsPeer(peer) && {HOST, peer} <= Sharing(w, info)
                   && RoutesLocal(kind, info.ownerID == sender))
  {
    SentToAllExceptCount(w, sender, info, peer);
  }

  predicate RoutesLocal(kind: RpcType, named: bool) {
    match kind
    case Master => false
    case Local => false
    case Remote => named
    case RemoteAndLocal => named
    case MasterAndRemote => true
    case All => true
  }

  /** When all peers share the entity, exactly the documented peers execute the RPC, each once. */
  lemma DeliveryAsDocumented(w: World, caller: ClientID, info: EntityInfo, name: Str, peer: ClientID)
    requires w.Valid() && w.IsPeer(caller) && info.ID >= 0 && w.Registered(info.kind, name)
    requires forall p :: w.IsPeer(p) ==> w.Agrees(p, info)
    ensures multiset(Executions(w, caller, info, name))[peer]
            == One(Documented(w, w.rpcs[info.kind][name], caller, info.ownerID, peer))
  {
    assert w.IsPeer(HOST);
    DeliveryExact(w, caller, info, name, peer);
  }
}
