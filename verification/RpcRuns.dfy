/** Entity RPCs in the scenes that runs of host and clients lead to. */
module RpcRuns {
  import opened Entities
  import opened SceneTree
  import opened Scenes
  import opened Replication
  import Rpc

  function Infos(scene: Scene): Rpc.Scene {
    map id | id in scene :: scene[id].info
  }

  /** The peers, as the RPCs find them: the clients in the order of the server's list, and everybody's scene */
  function AsFound(w: World, connected: seq<ClientID>, rpcs: map<Str, map<Str, Rpc.RpcType>>): Rpc.World {
    Rpc.World(connected, (map c | c in w.clients :: Infos(w.clients[c].scene))[HOST := Infos(w.host.scene)], rpcs)
  }

  /** The server's list of connected clients */
  ghost predicate ListsClients(connected: seq<ClientID>, w: World) {
    && (forall i, j :: 0 <= i < j < |connected| ==> connected[i] != connected[j])
    && (forall c :: c in connected <==> c in w.clients)
  }

  lemma {:induction false} RunKeepsClients(t: Types, w: World, steps: seq<Step>)
    requires t.Valid() && CanRun(t, w, steps) && forall c :: c in w.clients ==> c > HOST
    ensures forall c :: c in Replication.Exec(t, w, steps).clients ==> c > HOST
    decreases |steps|
  {
    if steps == [] {
    } else {
      forall c | c in Apply(t, w, steps[0]).clients
        ensures c > HOST
      {
        StepClient(t, w, steps[0], c);
      }
      RunKeepsClients(t, Apply(t, w, steps[0]), steps[1..]);
    }
  }

  /** Every client has had its snapshot, in a run that was clean for it, and all on its way has arrived. */
  ghost predicate Settled(t: Types, steps: seq<Step>)
    requires t.Valid() && CanRun(t, Init(), steps)
  {
    var w := Exec(t, Init(), steps);
    forall c :: c in w.clients ==> w.clients[c].synced && w.clients[c].inflight == [] && CleanRun(t, Init(), steps, c)
  }

  /** Then all peers agree about every live networked entity of the host's. */
  lemma {:induction false} AllAgree(t: Types, steps: seq<Step>, connected: seq<ClientID>, rpcs: map<Str, map<Str,
      Rpc.RpcType>>, id: EntityID)
    requires t.Valid() && CanRun(t, Init(), steps) && Settled(t, steps)
             && ListsClients(connected, Exec(t, Init(), steps))
    requires id in Exec(t, Init(), steps).HostView()
    ensures var w := Exec(t, Init(), steps);
            var found := AsFound(w, connected, rpcs);
            found.Valid() && forall p :: found.IsPeer(p) ==> found.Agrees(p, w.HostView()[id])
  {
    var w := Exec(t, Init(), steps);
    var found := AsFound(w, connected, rpcs);
    Replication.RunKeepsInv(t, Init(), steps);
    RunKeepsClients(t, Init(), steps);
    forall p | found.IsPeer(p)
      ensures found.Agrees(p, w.HostView()[id])
    {
      if p in w.clients {
        LateJoinersConverge(t, steps, p);
        assert id in Live(w.clients[p].scene);
      }
    }
  }

  /** So after any such run an RPC on a live networked entity is executed by exactly the documented peers, each once. */
  lemma {:induction false} DeliveryInRuns(t: Types, steps: seq<Step>, connected: seq<ClientID>, rpcs: map<Str,
      map<Str, Rpc.RpcType>>,
      caller: ClientID, id: EntityID, name: Str, peer: ClientID)
    requires t.Valid() && CanRun(t, Init(), steps) && Settled(t, steps)
             && ListsClients(connected, Exec(t, Init(), steps))
    requires id in Exec(t, Init(), steps).HostView()
    requires var found := AsFound(Exec(t, Init(), steps), connected, rpcs);
             found.IsPeer(caller) && found.Registered(Exec(t, Init(), steps).HostView()[id].kind, name)
    ensures var w := Exec(t, Init(), steps);
            var found := AsFound(w, connected, rpcs);
            var info := w.HostView()[id];
            multiset(Rpc.Executions(found, caller, info, name))[peer]
            == Rpc.One(Rpc.Documented(found, rpcs[info.kind][name], caller, info.ownerID, peer))
  {
    var w := Exec(t, Init(), steps);
    AllAgree(t, steps, connected, rpcs, id);
    Replication.RunKeepsInv(t, Init(), steps);
    Rpc.DeliveryAsDocumented(AsFound(w, connected, rpcs), caller, w.HostView()[id], name, peer);
  }
}
