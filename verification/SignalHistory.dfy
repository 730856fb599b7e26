/** Whole histories of signals: connections made, copied, moved, assigned to managed ones, destroyed and
    disconnected in any order, between any number of signals. What happens to a signal and its slots is what
    the methods of the Signals module are proved to do. */
module SignalHistory {
  import opened Signals

  type Handle = nat
  type Name = nat

  /** What a weak pointer was set from */
  datatype Target = Nothing | To(signal: Name)

  /** A connection object */
  datatype Link = Link(to: Target, id: nat)

  /** A signal, every slot ever made for it, and the IDs of those that have been disconnected */
  datatype Record = Record(now: State, made: seq<Slot>, cut: set<nat>)

  datatype Hub = Hub(signals: map<Name, Record>, links: map<Handle, Link>) {
    predicate Alive(g: Name) {
      g in signals && signals[g].now.alive
    }

    /** What the weak pointer locks to */
    function Lock(link: Link): Target {
      if link.to.To? && Alive(link.to.signal) then link.to else Nothing
    }
  }

  function Init(): Hub {
    Hub(map[], map[])
  }

  datatype Step =
    | Make(g: Name)
    | Connect(h: Handle, g: Name, callee: Callable)
    | Default(h: Handle, id: nat)     // a default-constructed connection, whatever its slot ID
    | Copy(h: Handle, from: Handle)
    | Disconnect(h: Handle)
    | Assign(h: Handle, from: Handle) // move assignment of managed connections
    | Move(h: Handle, from: Handle)   // move assignment of plain connections
    | DestroyManaged(h: Handle)
    | DestroyPlain(h: Handle)
    | DestroySignal(g: Name)

  predicate Enabled(s: Hub, step: Step) {
    match step
    case Make(g) => g !in s.signals
    case Connect(h, g, _) => s.Alive(g) && h !in s.links
    case Default(h, _) => h !in s.links
    case Copy(h, from) => h !in s.links && from in s.links
    case Disconnect(h) => h in s.links
    case Assign(h, from) => h in s.links && from in s.links
    case Move(h, from) => h in s.links && from in s.links
    case DestroyManaged(h) => h in s.links
    case DestroyPlain(h) => h in s.links
    case DestroySignal(g) => s.Alive(g)
  }

  /** operator bool */
  predicate Usable(s: Hub, link: Link) {
    link.id != 0 && s.Lock(link) != Nothing
  }

  /** What disconnect returns */
  predicate Disconnects(s: Hub, h: Handle)
    requires h in s.links
  {
    s.Lock(s.links[h]).To? && CanCut(s.signals[s.links[h].to.signal].now, s.links[h].id)
  }

  function CutIn(signals: map<Name, Record>, g: Name, id: nat): map<Name, Record>
    requires g in signals
  {
    signals[g := Record(Cut(signals[g].now, id), signals[g].made, signals[g].cut + {id})]
  }

  function ConnectedIn(signals: map<Name, Record>, g: Name, callee: Callable): map<Name, Record>
    requires g in signals
  {
    var now := Connected(signals[g].now, callee);
    signals[g := Record(now, signals[g].made + [Slot(now.counter, callee)], signals[g].cut)]
  }

  function AfterDisconnect(s: Hub, h: Handle): Hub
    requires h in s.links
  {
    if !Disconnects(s, h) then s
    else
      Hub(CutIn(s.signals, s.links[h].to.signal, s.links[h].id), s.links[h := Link(Nothing, 0)])
  }

  predicate Same(s: Hub, a: Link, b: Link) {
    a.id == b.id && s.Lock(a) == s.Lock(b)
  }

  function AfterMove(s: Hub, h: Handle, from: Handle): Hub
    requires h in s.links && from in s.links
  {
    var link := s.links[from];
    s.(links := s.links[h := link][from := if h == from then link else Link(Nothing, link.id)])
  }

  /** A new slot, for this connection object */
  function Taken(s: Hub, h: Handle, g: Name, callee: Callable): Hub
    requires g in s.signals
  {
    Hub(ConnectedIn(s.signals, g, callee), s.links[h := Link(To(g), s.signals[g].now.counter + 1)])
  }

  function Apply(s: Hub, step: Step): Hub
    requires Enabled(s, step)
  {
    match step
    case Make(g) => s.(signals := s.signals[g := Record(NEW, [], {})])
    case Connect(h, g, callee) => Taken(s, h, g, callee)
    case Default(h, id) => s.(links := s.links[h := Link(Nothing, id)])
    case Copy(h, from) => s.(links := s.links[h := s.links[from]])
    case Disconnect(h) => AfterDisconnect(s, h)
    case Assign(h, from) =>
      if Same(s, s.links[h], s.links[from]) then s else AfterMove(AfterDisconnect(s, h), h, from)
    case Move(h, from) => AfterMove(s, h, from)
    case DestroyManaged(h) => var t := AfterDisconnect(s, h); t.(links := t.links - {h})
    case DestroyPlain(h) => s.(links := s.links - {h})
    case DestroySignal(g) => s.(signals := s.signals[g := s.signals[g].(now := Destroyed(s.signals[g].now))])
  }

  // ----- the invariant

  /** The slots made and not disconnected, in the order they were made */
  function Live(made: seq<Slot>, cut: set<nat>): seq<Slot>
    decreases |made|
  {
    if made == [] then []
    else
      var n := |made| - 1;
      Live(made[..n], cut) + if made[n].id in cut then [] else [made[n]]
  }

  predicate Numbered(made: seq<Slot>) {
    forall i :: 0 <= i < |made| ==> made[i].id == i + 1
  }

  predicate RecordOk(r: Record) {
    && Numbered(r.made)
    && r.now.counter == |r.made|
    && (forall id :: id in r.cut ==> 1 <= id <= r.now.counter)
    && r.now.slots == (if r.now.alive then Live(r.made, r.cut) else [])
  }

  predicate LinkOk(s: Hub, link: Link) {
    link.to.To? ==> link.to.signal in s.signals && 1 <= link.id <= s.signals[link.to.signal].now.counter
  }

  ghost predicate Inv(s: Hub) {
    && (forall g :: g in s.signals ==> RecordOk(s.signals[g]))
    && (forall h :: h in s.links ==> LinkOk(s, s.links[h]))
  }

  lemma {:induction false} LiveHolds(made: seq<Slot>, cut: set<nat>, id: nat)
    requires Numbered(made)
    ensures Holds(Live(made, cut), id) <==> 1 <= id <= |made| && id !in cut
    decreases |made|
  {
    if made == [] {
    } else {
      var n := |made| - 1;
      LiveHolds(made[..n], cut, id);
      if made[n].id !in cut {
        HoldsSnoc(Live(made[..n], cut), made[n], id);
      } else {
        assert Live(made, cut) == Live(made[..n], cut);
      }
    }
  }

  lemma {:induction false} LiveWithout(made: seq<Slot>, cut: set<nat>, id: nat)
    ensures Without(Live(made, cut), id) == Live(made, cut + {id})
    decreases |made|
  {
    if made == [] {
    } else {
      var n := |made| - 1;
      LiveWithout(made[..n], cut, id);
      var front := Live(made[..n], cut);
      if made[n].id in cut {
        assert Live(made, cut) == front;
        assert Live(made, cut + {id}) == Live(made[..n], cut + {id});
      } else {
        assert (front + [made[n]])[..|front|] == front;
        if made[n].id == id {
          assert Live(made, cut + {id}) == Live(made[..n], cut + {id});
        }
      }
    }
  }

  lemma LiveSnoc(made: seq<Slot>, cut: set<nat>, slot: Slot)
    requires slot.id !in cut
    ensures Live(made + [slot], cut) == Live(made, cut) + [slot]
  {
    assert (made + [slot])[..|made|] == made;
  }

  lemma {:induction false} LiveIncreasing(made: seq<Slot>, cut: set<nat>)
    requires Numbered(made)
    ensures Increasing(Live(made, cut)) && Below(Live(made, cut), |made| + 1)
    decreases |made|
  {
    if made == [] {
    } else {
      LiveIncreasing(made[..|made| - 1], cut);
    }
  }

  lemma {:induction false} CutKeepsRecord(r: Record, id: nat)
    requires RecordOk(r) && r.now.alive
    ensures CanCut(r.now, id) <==> 1 <= id <= r.now.counter && id !in r.cut
    ensures CanCut(r.now, id) ==> RecordOk(Record(Cut(r.now, id), r.made, r.cut + {id}))
  {
    LiveHolds(r.made, r.cut, id);
    LiveWithout(r.made, r.cut, id);
  }

  /** Disconnecting works exactly for a connection to a living signal whose slot nobody has disconnected. */
  lemma {:induction false} DisconnectKeepsInv(s: Hub, h: Handle)
    requires Inv(s) && h in s.links
    ensures Inv(AfterDisconnect(s, h)) && AfterDisconnect(s, h).links.Keys == s.links.Keys
    ensures Disconnects(s, h) <==> s.Lock(s.links[h]).To? && s.links[h].id !in s.signals[s.links[h].to.signal].cut
  {
    var link := s.links[h];
    assert LinkOk(s, link);
    if s.Lock(link).To? {
      CutKeepsRecord(s.signals[link.to.signal], link.id);
    }
  }

  lemma {:induction false} TakenKeepsInv(s: Hub, h: Handle, g: Name, callee: Callable)
    requires Inv(s) && s.Alive(g)
    ensures Inv(Taken(s, h, g, callee))
  {
    LiveSnoc(s.signals[g].made, s.signals[g].cut, Slot(s.signals[g].now.counter + 1, callee));
  }

  lemma MoveKeepsInv(s: Hub, h: Handle, from: Handle)
    requires Inv(s) && h in s.links && from in s.links
    ensures Inv(AfterMove(s, h, from))
  {
  }

  lemma DropKeepsInv(s: Hub, h: Handle)
    requires Inv(s)
    ensures Inv(s.(links := s.links - {h}))
  {
  }

  /** Nothing disconnected comes back, and no dead signal does. */
  predicate Onward(s: Hub, t: Hub) {
    forall g :: g in s.signals ==> g in t.signals && s.signals[g].cut <= t.signals[g].cut && (t.Alive(g) ==> s.Alive(g))
  }

  lemma {:induction false} StepOnward(s: Hub, step: Step)
    requires Enabled(s, step)
    ensures Onward(s, Apply(s, step))
  {
  }

  lemma {:induction false} StepKeepsInv(s: Hub, step: Step)
    requires Inv(s) && Enabled(s, step)
    ensures Inv(Apply(s, step))
  {
    match step
    case Connect(h, g, callee) => TakenKeepsInv(s, h, g, callee);
    case Disconnect(h) => DisconnectKeepsInv(s, h);
    case Assign(h, from) =>
      DisconnectKeepsInv(s, h);
      MoveKeepsInv(AfterDisconnect(s, h), h, from);
    case Move(h, from) => MoveKeepsInv(s, h, from);
    case DestroyManaged(h) =>
      DisconnectKeepsInv(s, h);
      DropKeepsInv(AfterDisconnect(s, h), h);
    case DestroyPlain(h) => DropKeepsInv(s, h);
    case _ =>
  }

  // ----- all histories

  /** Each step is possible when it is taken. */
  predicate CanRun(steps: seq<Step>)
    decreases |steps|, 0
  {
    steps == [] || (var n := |steps| - 1; CanRun(steps[..n]) && Enabled(Exec(steps[..n]), steps[n]))
  }

  function Exec(steps: seq<Step>): Hub
    requires CanRun(steps)
    decreases |steps|, 1
  {
    if steps == [] then Init() else Apply(Exec(steps[..|steps| - 1]), steps[|steps| - 1])
  }

  lemma {:induction false} RunInv(steps: seq<Step>)
    requires CanRun(steps)
    ensures Inv(Exec(steps))
    decreases |steps|
  {
    if steps == [] {
    } else {
      RunInv(steps[..|steps| - 1]);
      StepKeepsInv(Exec(steps[..|steps| - 1]), steps[|steps| - 1]);
    }
  }

  lemma {:induction false} LiveMembers(made: seq<Slot>, cut: set<nat>, slot: Slot)
    ensures slot in Live(made, cut) <==> slot in made && slot.id !in cut
    decreases |made|
  {
    if made == [] {
    } else {
      var n := |made| - 1;
      LiveMembers(made[..n], cut, slot);
      assert made == made[..n] + [made[n]];
    }
  }

  /** After any history, the slots of a signal that emit walks through are exactly the ones connected to it and not
      yet disconnected, once each, in the order they were connected. */
  lemma EmitExact(steps: seq<Step>, g: Name, slot: Slot)
    requires CanRun(steps) && Exec(steps).Alive(g)
    ensures var r := Exec(steps).signals[g];
            && Increasing(r.made) && Increasing(r.now.slots)
            && (slot in r.now.slots <==> slot in r.made && slot.id !in r.cut)
  {
    RunInv(steps);
    var r := Exec(steps).signals[g];
    LiveIncreasing(r.made, r.cut);
    LiveMembers(r.made, r.cut, slot);
  }

  lemma {:induction false} OnlyOnward(steps: seq<Step>, n: nat)
    requires CanRun(steps) && n <= |steps|
    ensures CanRun(steps[..n]) && Onward(Exec(steps[..n]), Exec(steps))
    decreases |steps|
  {
    if n == |steps| {
      assert steps[..n] == steps;
    } else {
      var m := |steps| - 1;
      OnlyOnward(steps[..m], n);
      assert steps[..m][..n] == steps[..n];
      StepOnward(Exec(steps[..m]), steps[m]);
    }
  }

  /** Disconnecting works exactly for a connection whose slot nobody has disconnected: once it has been, by whatever
      means, no copy can do it again at any later time, and trying changes nothing. */
  lemma DisconnectOnce(steps: seq<Step>, n: nat, h: Handle)
    requires CanRun(steps) && n <= |steps| && h in Exec(steps).links
    ensures CanRun(steps[..n])
    ensures var s := Exec(steps); var link := s.links[h];
            && (Disconnects(s, h) <==> s.Lock(link).To? && link.id !in s.signals[link.to.signal].cut)
            && (Disconnects(s, h) ==> link.id in Apply(s, Disconnect(h)).signals[link.to.signal].cut)
            && (!Disconnects(s, h) ==> Apply(s, Disconnect(h)) == s)
    ensures var before := Exec(steps[..n]); var link := Exec(steps).links[h];
            (link.to.To? && link.to.signal in before.signals && link.id in before.signals[link.to.signal].cut) ==>
              !Disconnects(Exec(steps), h)
  {
    OnlyOnward(steps, n);
    RunInv(steps);
    DisconnectKeepsInv(Exec(steps), h);
  }

  /** operator bool promises less than its name: a connection that tests true is still connected exactly when its slot
      has not been disconnected through another copy. */
  lemma UsableIsNotConnected(steps: seq<Step>, h: Handle)
    requires CanRun(steps) && h in Exec(steps).links && Usable(Exec(steps), Exec(steps).links[h])
    ensures var link := Exec(steps).links[h];
            var r := Exec(steps).signals[link.to.signal];
            Holds(r.now.slots, link.id) <==> link.id !in r.cut
  {
    RunInv(steps);
    var link := Exec(steps).links[h];
    var r := Exec(steps).signals[link.to.signal];
    LiveHolds(r.made, r.cut, link.id);
  }

  /** It happens at any time, to any connection: disconnect one of two copies, and the other still tests true. */
  lemma {:induction false} CopyOutlivesSlot(s: Hub, h: Handle, copy: Handle)
    requires Inv(s) && h in s.links && copy !in s.links && Disconnects(s, h)
    ensures var a := Apply(s, Copy(copy, h));
            var t := Apply(a, Disconnect(h));
            var link := t.links[copy];
            link == s.links[h] && Usable(t, link) && !Holds(t.signals[link.to.signal].now.slots, link.id)
  {
    var a := Apply(s, Copy(copy, h));
    StepKeepsInv(s, Copy(copy, h));
    CopyAfterCut(a, h, copy);
  }

  lemma {:induction false} CopyAfterCut(s: Hub, h: Handle, copy: Handle)
    requires Inv(s) && h in s.links && copy in s.links && h != copy && s.links[copy] == s.links[h] && Disconnects(s, h)
    ensures var t := AfterDisconnect(s, h); var link := s.links[copy];
            t.links[copy] == link && Usable(t, link) && !Holds(t.signals[link.to.signal].now.slots, link.id)
  {
    var link := s.links[copy];
    assert LinkOk(s, link);
    DisconnectKeepsInv(s, h);
    HoldsUnlessCut(AfterDisconnect(s, h), link.to.signal, link.id);
  }

  // ----- one managed connection

  /** m = signal.connect(f): a temporary is made, moved from, and destroyed. */
  predicate CanAssignFresh(s: Hub, m: Handle, temp: Handle, g: Name) {
    s.Alive(g) && m in s.links && temp !in s.links
  }

  function FreshSteps(s: Hub, m: Handle, temp: Handle, g: Name, callee: Callable): Hub
    requires CanAssignFresh(s, m, temp, g)
  {
    var a := Apply(s, Connect(temp, g, callee));
    var b := Apply(a, Assign(m, temp));
    Apply(b, DestroyManaged(temp))
  }

  /** What comes to the same: m is disconnected, and takes a new slot. */
  function AssignFresh(s: Hub, m: Handle, g: Name, callee: Callable): Hub
    requires g in s.signals && m in s.links
  {
    Taken(AfterDisconnect(s, m), m, g, callee)
  }

  lemma {:induction false} NotHeld(slots: seq<Slot>, id: nat)
    requires Below(slots, id)
    ensures !Holds(slots, id)
  {
  }

  lemma {:induction false} WithoutSnoc(slots: seq<Slot>, slot: Slot, id: nat)
    ensures Without(slots + [slot], id) == Without(slots, id) + if slot.id == id then [] else [slot]
  {
    assert (slots + [slot])[..|slots|] == slots;
  }

  /** Connecting first and then letting go of the old slot is letting go of it and then connecting. */
  lemma {:induction false} CutAfterConnect(now: State, callee: Callable, id: nat)
    requires id <= now.counter
    ensures CanCut(Connected(now, callee), id) <==> CanCut(now, id)
    ensures Cut(Connected(now, callee), id) == Connected(Cut(now, id), callee)
  {
    var slot := Slot(now.counter + 1, callee);
    HoldsSnoc(now.slots, slot, id);
    WithoutSnoc(now.slots, slot, id);
  }

  /** For the signals; the connection object the new slot is for does not matter. */
  lemma {:induction false} LetGo(s: Hub, m: Handle, temp: Handle, g: Name, callee: Callable)
    requires g in s.signals && m in s.links && LinkOk(s, s.links[m]) && temp != m
    ensures var a := Taken(s, temp, g, callee);
            && Disconnects(a, m) == Disconnects(s, m)
            && AfterDisconnect(a, m).signals == AssignFresh(s, m, g, callee).signals
  {
    var link := s.links[m];
    if link.to.To? {
      if link.to.signal == g {
        CutAfterConnect(s.signals[g].now, callee, link.id);
      }
      if Disconnects(s, m) {
        CutElsewhere(s.signals, link.to.signal, link.id, g, callee);
      }
    }
  }

  lemma {:induction false} CutElsewhere(signals: map<Name, Record>, k: Name, id: nat, g: Name, callee: Callable)
    requires k in signals && g in signals && id <= signals[k].now.counter
    ensures CutIn(ConnectedIn(signals, g, callee), k, id) == ConnectedIn(CutIn(signals, k, id), g, callee)
  {
    if k == g {
      CutAfterConnect(signals[g].now, callee, id);
    }
  }

  lemma {:induction false} AssignFreshExact(s: Hub, m: Handle, temp: Handle, g: Name, callee: Callable)
    requires Inv(s) && CanAssignFresh(s, m, temp, g)
    ensures FreshSteps(s, m, temp, g, callee) == AssignFresh(s, m, g, callee)
  {
    assert LinkOk(s, s.links[m]);
    LetGo(s, m, temp, g, callee);
    var a := Taken(s, temp, g, callee);
    assert !Same(a, a.links[m], a.links[temp]);
    AssignAndDrop(a, m, temp);
    FreshLinks(AfterDisconnect(s, m).links, s.links, m, temp, a.links[temp]);
  }

  lemma {:induction false} FreshLinks(after: map<Handle, Link>, links: map<Handle, Link>, m: Handle, temp: Handle,
      link: Link)
    requires m in links && temp !in links && after.Keys == links.Keys
    requires forall h :: h in links && h != m ==> after[h] == links[h]
    ensures links[temp := link][m := link] - {temp} == after[m := link]
  {
  }

  /** Assigning a temporary that is another connection, and destroying it, hands over its slot. */
  lemma {:induction false} AssignAndDrop(a: Hub, m: Handle, temp: Handle)
    requires m in a.links && temp in a.links && m != temp && !Same(a, a.links[m], a.links[temp])
    ensures Apply(Apply(a, Assign(m, temp)), DestroyManaged(temp))
         == Hub(AfterDisconnect(a, m).signals, a.links[m := a.links[temp]] - {temp})
  {
    var b := AfterMove(AfterDisconnect(a, m), m, temp);
    assert b.links[temp].to == Nothing && AfterDisconnect(b, temp) == b;
    assert b.links - {temp} == a.links[m := a.links[temp]] - {temp};
  }

  lemma {:induction false} AssignFreshKeepsInv(s: Hub, m: Handle, g: Name, callee: Callable)
    requires Inv(s) && s.Alive(g) && m in s.links
    ensures Inv(AssignFresh(s, m, g, callee))
  {
    DisconnectKeepsInv(s, m);
    TakenKeepsInv(AfterDisconnect(s, m), m, g, callee);
  }

  /** The slots of a signal other than the one m stands for */
  function Others(s: Hub, m: Handle, g: Name): seq<Slot>
    requires m in s.links && g in s.signals
  {
    if s.links[m].to == To(g) then Cut(s.signals[g].now, s.links[m].id).slots else s.signals[g].now.slots
  }

  /** What m stood for, at this or another signal, goes; the new slot stays. */
  ghost predicate LastStays(s: Hub, t: Hub, m: Handle, g: Name, callee: Callable, f: Name) {
    && m in s.links && f in s.signals && m in t.links && f in t.signals
    && t.signals[f].now.slots == Others(s, m, f) + (if f == g then [Slot(t.signals[f].now.counter, callee)] else [])
    && Others(t, m, f) == Others(s, m, f)
  }

  lemma {:induction false} AssignFreshResult(s: Hub, m: Handle, g: Name, callee: Callable, f: Name)
    requires Inv(s) && s.Alive(g) && m in s.links && f in s.signals
    ensures LastStays(s, AssignFresh(s, m, g, callee), m, g, callee, f)
  {
    DisconnectKeepsInv(s, m);
    AfterIsOthers(s, m, f);
    AfterIsOthers(s, m, g);
    TakenResult(AfterDisconnect(s, m), m, g, callee, f);
  }

  lemma {:induction false} AfterIsOthers(s: Hub, m: Handle, f: Name)
    requires m in s.links && f in s.signals
    ensures f in AfterDisconnect(s, m).signals && AfterDisconnect(s, m).signals[f].now.slots == Others(s, m, f)
    ensures AfterDisconnect(s, m).Alive(f) == s.Alive(f)
  {
  }

  lemma {:induction false} TakenResult(t: Hub, m: Handle, g: Name, callee: Callable, f: Name)
    requires Inv(t) && t.Alive(g) && f in t.signals
    ensures var u := Taken(t, m, g, callee);
            && u.signals[f].now.slots == t.signals[f].now.slots + (if f
                == g then [Slot(u.signals[f].now.counter, callee)] else [])
            && Others(u, m, f) == t.signals[f].now.slots
  {
    if f == g {
      NewSlotLast(t.signals[g], callee);
    }
  }

  lemma {:induction false} NewSlotLast(r: Record, callee: Callable)
    requires RecordOk(r) && r.now.alive
    ensures Cut(Connected(r.now, callee), r.now.counter + 1).slots == r.now.slots
  {
    var slot := Slot(r.now.counter + 1, callee);
    LiveIncreasing(r.made, r.cut);
    NotHeld(r.now.slots, slot.id);
    WithoutAbsent(r.now.slots, slot.id);
    WithoutSnoc(r.now.slots, slot, slot.id);
    HoldsSnoc(r.now.slots, slot, slot.id);
  }

  datatype Fresh = Fresh(g: Name, callee: Callable)

  /** Hubs between one assignment of a fresh connection and the next */
  ghost predicate AssignRun(hs: seq<Hub>, m: Handle, temp: Handle, fs: seq<Fresh>) {
    |hs| == |fs| + 1 && forall i :: 0 <= i < |fs| ==> Assigns(hs[i], hs[i + 1], m, temp, fs[i])
  }

  ghost predicate Assigns(s: Hub, t: Hub, m: Handle, temp: Handle, f: Fresh) {
    CanAssignFresh(s, m, temp, f.g) && t == FreshSteps(s, m, temp, f.g, f.callee)
  }

  lemma {:induction false} AssignsResult(s: Hub, t: Hub, m: Handle, temp: Handle, f: Fresh, g: Name)
    requires Inv(s) && Assigns(s, t, m, temp, f) && g in s.signals
    ensures Inv(t) && LastStays(s, t, m, f.g, f.callee, g)
  {
    AssignFreshExact(s, m, temp, f.g, f.callee);
    AssignFreshKeepsInv(s, m, f.g, f.callee);
    AssignFreshResult(s, m, f.g, f.callee, g);
  }

  /** However often fresh connections, of one signal or several, are assigned to one managed connection, only
      the last slot is left of them, after those of everybody else. */
  lemma {:induction false} OnlyLastStays(hs: seq<Hub>, m: Handle, temp: Handle, fs: seq<Fresh>, g: Name)
    requires AssignRun(hs, m, temp, fs) && fs != [] && Inv(hs[0]) && g in hs[0].signals
    ensures var last := fs[|fs| - 1];
            Inv(hs[|fs|]) && LastStays(hs[0], hs[|fs|], m, last.g, last.callee, g)
    decreases |fs|
  {
    var n := |fs| - 1;
    assert Assigns(hs[n], hs[n + 1], m, temp, fs[n]);
    if n == 0 {
      AssignsResult(hs[0], hs[1], m, temp, fs[0], g);
    } else {
      forall i | 0 <= i < n
        ensures Assigns(hs[..n + 1][i], hs[..n + 1][i + 1], m, temp, fs[..n][i])
      {
        assert Assigns(hs[i], hs[i + 1], m, temp, fs[i]);
      }
      OnlyLastStays(hs[..n + 1], m, temp, fs[..n], g);
      AssignsResult(hs[n], hs[n + 1], m, temp, fs[n], g);
    }
  }

  /** Assigning a temporary to a managed connection keeps the temporary's slot exactly if the two were not
      already the same connection; if they were, destroying the temporary disconnects it. */
  lemma {:induction false} AssignTemporary(s: Hub, m: Handle, temp: Handle)
    requires Inv(s) && m in s.links && temp in s.links && m != temp && Disconnects(s, temp)
    ensures var t := Apply(Apply(s, Assign(m, temp)), DestroyManaged(temp));
            var link := s.links[temp];
            Holds(t.signals[link.to.signal].now.slots, link.id) <==> s.links[m] != link
  {
    if Same(s, s.links[m], s.links[temp]) {
      AssignItself(s, m, temp);
    } else {
      AssignOther(s, m, temp);
    }
  }

  lemma {:induction false} AssignItself(s: Hub, m: Handle, temp: Handle)
    requires Inv(s) && m in s.links && temp in s.links && m != temp && Disconnects(s, temp)
             && Same(s, s.links[m], s.links[temp])
    ensures s.links[m] == s.links[temp]
    ensures var t := Apply(Apply(s, Assign(m, temp)), DestroyManaged(temp));
            !Holds(t.signals[s.links[temp].to.signal].now.slots, s.links[temp].id)
  {
    var link := s.links[temp];
    var a := AfterDisconnect(s, temp);
    assert LinkOk(s, link);
    DisconnectKeepsInv(s, temp);
    HoldsUnlessCut(a, link.to.signal, link.id);
    assert Apply(s, Assign(m, temp)) == s;
    assert Apply(s, DestroyManaged(temp)).signals == a.signals;
  }

  lemma {:induction false} AssignOther(s: Hub, m: Handle, temp: Handle)
    requires Inv(s) && m in s.links && temp in s.links && m != temp && Disconnects(s, temp)
             && !Same(s, s.links[m], s.links[temp])
    ensures s.links[m] != s.links[temp]
    ensures var t := Apply(Apply(s, Assign(m, temp)), DestroyManaged(temp));
            Holds(t.signals[s.links[temp].to.signal].now.slots, s.links[temp].id)
  {
    var link := s.links[temp];
    assert LinkOk(s, link);
    AssignAndDrop(s, m, temp);
    DisconnectKeepsInv(s, temp);
    DisconnectKeepsInv(s, m);
    HoldsUnlessCut(AfterDisconnect(s, m), link.to.signal, link.id);
  }

  lemma {:induction false} HoldsUnlessCut(s: Hub, g: Name, id: nat)
    requires Inv(s) && s.Alive(g) && 1 <= id <= s.signals[g].now.counter
    ensures Holds(s.signals[g].now.slots, id) <==> id !in s.signals[g].cut
  {
    LiveHolds(s.signals[g].made, s.signals[g].cut, id);
  }
}
