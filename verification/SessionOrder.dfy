/** In what order client IDs are given out, and events reach the game, told from what the steps show. */
module SessionOrder {
  import opened Entities
  import opened ServerSessions

  // ----- what happens, as the peers see it

  /** The ID a connecting peer is given */
  function IdGiven(s: Server, p: Peer): ClientID
    requires Enabled(s, Connect(p))
  {
    Apply(s, Connect(p)).peers[p]
  }

  function GivenBy(s: Server, step: Step): seq<ClientID>
    requires Enabled(s, step)
  {
    match step
    case Connect(p) => [IdGiven(s, p)]
    case _ => []
  }

  function HappensBy(s: Server, step: Step): seq<Event>
    requires Enabled(s, step)
  {
    match step
    case Connect(p) => [Connected(IdGiven(s, p))]
    case Receive(p) => [Data(s.peers[p])]
    case Disconnect(p) => [Disconnected(s.peers[p])]
    case _ => []
  }

  function Front(steps: seq<Step>): seq<Step>
    requires steps != []
  {
    steps[..|steps| - 1]
  }

  function Last(steps: seq<Step>): Step
    requires steps != []
  {
    steps[|steps| - 1]
  }

  /** The IDs given out in a run, in order */
  function Given(steps: seq<Step>): seq<ClientID>
    requires CanRun(steps)
    decreases |steps|
  {
    if steps == [] then [] else Given(Front(steps)) + GivenBy(Exec(Front(steps)), Last(steps))
  }

  /** What the peers do, in order */
  function Happened(steps: seq<Step>): seq<Event>
    requires CanRun(steps)
    decreases |steps|
  {
    if steps == [] then [] else Happened(Front(steps)) + HappensBy(Exec(Front(steps)), Last(steps))
  }

  /** Those of the IDs that had been given out before */
  function Again(ids: seq<ClientID>): seq<ClientID> {
    if ids == [] then []
    else
      var n := |ids| - 1;
      Again(ids[..n]) + if ids[n] in ids[..n] then [ids[n]] else []
  }

  /** And those that had not */
  function First(ids: seq<ClientID>): seq<ClientID> {
    if ids == [] then []
    else
      var n := |ids| - 1;
      First(ids[..n]) + if ids[n] in ids[..n] then [] else [ids[n]]
  }

  // ----- the order of IDs

  predicate CountsUp(ids: seq<ClientID>, next: ClientID) {
    |ids| == next - FIRST_UID && forall i :: 0 <= i < |ids| ==> ids[i] == FIRST_UID + i
  }

  predicate FreeIssued(s: Server) {
    forall i :: 0 <= i < |s.freeIds| ==> FIRST_UID <= s.freeIds[i] < s.nextUid
  }

  lemma {:induction false} RunFreeIssued(steps: seq<Step>)
    requires CanRun(steps)
    ensures FreeIssued(Exec(steps))
  {
    RunInv(steps);
    FreeWasIssued(Exec(steps));
  }

  lemma {:induction false} FreeWasIssued(s: Server)
    requires IdsOk(s)
    ensures FreeIssued(s)
  {
    forall i | 0 <= i < |s.freeIds|
      ensures FIRST_UID <= s.freeIds[i] < s.nextUid
    {
      var id := s.freeIds[i];
      assert multiset(Issued(s.nextUid))[id]
          == multiset(s.peers.Values)[id] + multiset(s.Pending())[id] + multiset(s.freeIds)[id];
      assert multiset(s.freeIds)[id] > 0;
    }
  }

  /** What has been given out, and what there is to give out */
  predicate Ordered(given: seq<ClientID>, s: Server) {
    && Again(given) + s.freeIds == Departures(s.emitted)
    && CountsUp(First(given), s.nextUid)
    && forall id :: id in given ==> FIRST_UID <= id < s.nextUid
  }

  ghost predicate AllGiven(given: seq<ClientID>, s: Server) {
    forall id :: FIRST_UID <= id < s.nextUid ==> id in given
  }

  /** A connection takes the oldest free ID, or else the next new one. */
  lemma {:induction false} ConnectExact(s: Server, p: Peer)
    requires Enabled(s, Connect(p))
    ensures var t := Apply(s, Connect(p));
            && (s.freeIds != [] ==>
                  IdGiven(s, p) == s.freeIds[0] && t.freeIds == s.freeIds[1..] && t.nextUid == s.nextUid)
            && (s.freeIds == [] ==> IdGiven(s, p) == s.nextUid && t.freeIds == [] && t.nextUid == s.nextUid + 1)
            && t.emitted == s.emitted
  {
  }

  lemma {:induction false} GiveOld(given: seq<ClientID>, s: Server, t: Server)
    requires Ordered(given, s) && AllGiven(given, s) && FreeIssued(s) && s.freeIds != []
    requires t.freeIds == s.freeIds[1..] && t.nextUid == s.nextUid && t.emitted == s.emitted
    ensures Ordered(given + [s.freeIds[0]], t) && AllGiven(given + [s.freeIds[0]], t)
  {
    var id := s.freeIds[0];
    var more := given + [id];
    assert more[..|given|] == given;
    assert id in given;
    assert Again(more) == Again(given) + [id] && First(more) == First(given) + [];
    assert (Again(given) + [id]) + s.freeIds[1..] == Again(given) + s.freeIds;
  }

  lemma {:induction false} GiveNew(given: seq<ClientID>, s: Server, t: Server)
    requires Ordered(given, s) && AllGiven(given, s) && s.freeIds == [] && s.nextUid >= FIRST_UID
    requires t.freeIds == [] && t.nextUid == s.nextUid + 1 && t.emitted == s.emitted
    ensures Ordered(given + [s.nextUid], t) && AllGiven(given + [s.nextUid], t)
  {
    var id := s.nextUid;
    var more := given + [id];
    assert more[..|given|] == given;
    assert id !in given;
    assert Again(more) == Again(given) + [] && First(more) == First(given) + [id];
    forall x | FIRST_UID <= x < t.nextUid
      ensures x in more
    {
      if x == id {
        assert more[|given|] == id;
      } else {
        assert x in given;
      }
    }
  }

  lemma {:induction false} OtherStep(s: Server, step: Step)
    requires Enabled(s, step) && !step.Connect?
    ensures var t := Apply(s, step);
            && t.nextUid == s.nextUid
            && (step.Emit? ==>
                  && t.emitted == s.emitted + [s.queued[0]]
                  && t.freeIds == s.freeIds + if s.queued[0].Disconnected? then [s.queued[0].id] else [])
            && (!step.Emit? ==> t.emitted == s.emitted && t.freeIds == s.freeIds)
  {
  }

  lemma {:induction false} OrderedStep(given: seq<ClientID>, s: Server, step: Step)
    requires Enabled(s, step) && Ordered(given, s) && AllGiven(given, s) && FreeIssued(s) && s.nextUid >= FIRST_UID
    ensures Ordered(given + GivenBy(s, step), Apply(s, step)) && AllGiven(given + GivenBy(s, step), Apply(s, step))
    ensures Apply(s, step).nextUid >= FIRST_UID
  {
    var t := Apply(s, step);
    if step.Connect? {
      ConnectExact(s, step.peer);
      if s.freeIds != [] {
        GiveOld(given, s, t);
      } else {
        GiveNew(given, s, t);
      }
    } else {
      OtherStep(s, step);
      assert given + [] == given;
      if step.Emit? {
        DeparturesSnoc(s.emitted, s.queued[0]);
        assert (Again(given) + s.freeIds) + (if s.queued[0].Disconnected? then [s.queued[0].id] else [])
            == Again(given) + t.freeIds;
      }
    }
  }

  lemma {:induction false} RunOrdered(steps: seq<Step>)
    requires CanRun(steps)
    ensures Ordered(Given(steps), Exec(steps)) && AllGiven(Given(steps), Exec(steps))
            && Exec(steps).nextUid >= FIRST_UID
    decreases |steps|
  {
    if steps == [] {
    } else {
      RunOrdered(Front(steps));
      RunFreeIssued(Front(steps));
      OrderedStep(Given(Front(steps)), Exec(Front(steps)), Last(steps));
    }
  }

  /** Main theorem: after any run, the IDs given out for the first time are 2, 3, 4 and so on, and those given
      out again, followed by those free now, are the ones whose DISCONNECTED was emitted, in that order. */
  lemma {:induction false} IdsInOrder(steps: seq<Step>)
    requires CanRun(steps)
    ensures Again(Given(steps)) + Exec(steps).freeIds == Departures(Exec(steps).emitted)
    ensures CountsUp(First(Given(steps)), Exec(steps).nextUid)
  {
    RunOrdered(steps);
  }

  // ----- while nothing is freed

  /** The i-th ID to be given out if none is freed meanwhile */
  function NextId(s: Server, i: nat): ClientID {
    if i < |s.freeIds| then s.freeIds[i] else s.nextUid + (i - |s.freeIds|)
  }

  /** From s to t, these were given out. */
  predicate GivenSince(s: Server, ids: seq<ClientID>, t: Server) {
    && (forall i :: 0 <= i < |ids| ==> ids[i] == NextId(s, i))
    && t.freeIds == (if |ids| <= |s.freeIds| then s.freeIds[|ids|..] else [])
    && t.nextUid == s.nextUid + (if |ids| <= |s.freeIds| then 0 else |ids| - |s.freeIds|)
  }

  lemma {:induction false} GivenSinceStep(s: Server, ids: seq<ClientID>, t: Server, step: Step)
    requires GivenSince(s, ids, t) && Enabled(t, step) && !step.Emit?
    ensures GivenSince(s, ids + GivenBy(t, step), Apply(t, step))
  {
    if step.Connect? {
      ConnectExact(t, step.peer);
    } else {
      OtherStep(t, step);
      assert ids + [] == ids;
    }
  }

  /** The IDs given out in the second part of a run */
  function GivenAfter(first: seq<Step>, more: seq<Step>): seq<ClientID>
    requires CanRun(first + more)
    decreases |more|
  {
    if more == [] then []
    else
      FrontOf(first, more);
      GivenAfter(first, Front(more)) + GivenBy(Exec(first + Front(more)), Last(more))
  }

  lemma {:induction false} FrontOf(first: seq<Step>, more: seq<Step>)
    requires CanRun(first + more) && more != []
    ensures Front(first + more) == first + Front(more) && Last(first + more) == Last(more)
    ensures CanRun(first + Front(more)) && Enabled(Exec(first + Front(more)), Last(more))
    ensures Exec(first + more) == Apply(Exec(first + Front(more)), Last(more))
  {
    assert Front(first + more) == first + Front(more);
  }

  /** Main theorem: as long as the game emits nothing, whoever else comes and goes, connecting peers are given
      first the free IDs in their order, and then new ones counting up. */
  lemma {:induction false} GivenInOrder(first: seq<Step>, more: seq<Step>)
    requires CanRun(first) && CanRun(first + more) && forall i :: 0 <= i < |more| ==> !more[i].Emit?
    ensures GivenSince(Exec(first), GivenAfter(first, more), Exec(first + more))
    decreases |more|
  {
    if more == [] {
      assert first + more == first;
    } else {
      FrontOf(first, more);
      GivenInOrder(first, Front(more));
      GivenSinceStep(Exec(first), GivenAfter(first, Front(more)), Exec(first + Front(more)), Last(more));
    }
  }

  // ----- the order of events

  function Along(s: Server): seq<Event> {
    s.emitted + (s.queued + s.captured)
  }

  lemma {:induction false} AlongStep(s: Server, step: Step)
    requires Enabled(s, step)
    ensures Along(Apply(s, step)) == Along(s) + HappensBy(s, step)
  {
    match step
    case Consume => Advanced(s.queued, s.captured, []);
    case Emit => Advanced(s.emitted, s.queued, s.captured);
    case _ => Appended(s.emitted, s.queued, s.captured, HappensBy(s, step));
  }

  lemma {:induction false} Advanced<T>(a: seq<T>, b: seq<T>, c: seq<T>)
    requires b != []
    ensures (a + [b[0]]) + (b[1..] + c) == a + (b + c)
    ensures (a + [b[0]]) + b[1..] == a + b
  {
  }

  lemma {:induction false} Appended<T>(a: seq<T>, b: seq<T>, c: seq<T>, d: seq<T>)
    ensures a + (b + (c + d)) == (a + (b + c)) + d
    ensures c + [] == c
  {
  }

  /** Main theorem: nothing that happens is lost, repeated or overtaken: what has been emitted, what is queued
      and what has been captured make up, in this order, all that the peers have done. */
  lemma {:induction false} EventsInOrder(steps: seq<Step>)
    requires CanRun(steps)
    ensures Exec(steps).emitted + (Exec(steps).queued + Exec(steps).captured) == Happened(steps)
    decreases |steps|
  {
    if steps == [] {
    } else {
      EventsInOrder(Front(steps));
      AlongStep(Exec(Front(steps)), Last(steps));
    }
  }

  // ----- IDs last, and the peak is one

  /** A peer keeps its ID for as long as it is connected. */
  lemma {:induction false} KeepsID(s: Server, step: Step, p: Peer)
    requires Enabled(s, step) && p in s.peers && step != Disconnect(p)
    ensures p in Apply(s, step).peers && Apply(s, step).peers[p] == s.peers[p]
  {
  }

  /** It knows its ID from its CLIENT_INITIALIZED on, and not before. */
  lemma {:induction false} LearnsID(s: Server, step: Step, p: Peer)
    requires Enabled(s, step) && p in Apply(s, step).peers && p in Apply(s, step).known
    ensures step == Initialise(p) ==> Apply(s, step).known[p] == Apply(s, step).peers[p]
    ensures step == Connect(p) ==> Apply(s, step).known[p] == 0
    ensures step != Initialise(p) && step != Connect(p) && p in s.known ==> Apply(s, step).known[p] == s.known[p]
  {
  }

  /** The most IDs that were ever out at once */
  function MostOut(steps: seq<Step>): nat
    requires CanRun(steps)
    decreases |steps|
  {
    if steps == [] then 0
    else
      var before := MostOut(Front(steps));
      if Exec(steps).Out() > before then Exec(steps).Out() else before
  }

  /** After any run, that is the peak, and as many IDs have ever been issued. */
  lemma {:induction false} PeakIsMost(steps: seq<Step>)
    requires CanRun(steps)
    ensures Exec(steps).peak == MostOut(steps) == Exec(steps).nextUid - FIRST_UID
    decreases |steps|
  {
    RunInv(steps);
    if steps == [] {
    } else {
      RunInv(Front(steps));
      PeakIsMost(Front(steps));
      PeakStep(Exec(Front(steps)), Last(steps));
    }
  }

  lemma {:induction false} PeakStep(s: Server, step: Step)
    requires Inv(s) && Enabled(s, step)
    ensures var t := Apply(s, step); t.peak == if t.Out() > s.peak then t.Out() else s.peak
  {
    StepKeepsInv(s, step);
    OutCount(s);
    OutCount(Apply(s, step));
  }
}
