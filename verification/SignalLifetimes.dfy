/** How long a connected function stays connected: what the steps do to slots and connections, seen from outside. */
module SignalLifetimes {
  import opened Signals
  import opened SignalHistory

  predicate StandsFor(s: Hub, h: Handle, g: Name, id: nat) {
    h in s.links && s.links[h] == Link(To(g), id)
  }

  /** The step disconnects, destroys or assigns to a connection that stands for this slot; assigning to it one that
      stands for the same does nothing. */
  predicate LetsGo(s: Hub, step: Step, g: Name, id: nat) {
    match step
    case Disconnect(h) => StandsFor(s, h, g, id)
    case DestroyManaged(h) => StandsFor(s, h, g, id)
    case Assign(h, from) => StandsFor(s, h, g, id) && !StandsFor(s, from, g, id)
    case _ => false
  }

  /** What the step adds to the slots of this signal */
  function Adds(s: Hub, step: Step, g: Name): seq<Slot>
    requires g in s.signals
  {
    match step
    case Connect(_, g', callee) => if g' == g then [Slot(s.signals[g].now.counter + 1, callee)] else []
    case _ => []
  }

  /** A step that is none of those three, and does not destroy the signal, leaves every slot in its place, and at most
      adds one at the end. */
  lemma {:induction false} SlotsKept(s: Hub, step: Step, g: Name)
    requires Enabled(s, step) && g in s.signals && step != DestroySignal(g)
    requires !step.Disconnect? && !step.Assign? && !step.DestroyManaged?
    ensures g in Apply(s, step).signals
    ensures Apply(s, step).signals[g].now.slots == s.signals[g].now.slots + Adds(s, step, g)
    ensures Apply(s, step).Alive(g) == s.Alive(g)
  {
    assert s.signals[g].now.slots + [] == s.signals[g].now.slots;
  }

  lemma {:induction false} DisconnectSlots(s: Hub, h: Handle, g: Name, slot: Slot)
    requires Inv(s) && h in s.links && s.Alive(g)
    ensures AfterDisconnect(s, h).Alive(g)
    ensures slot in AfterDisconnect(s, h).signals[g].now.slots <==>
            slot in s.signals[g].now.slots && !StandsFor(s, h, g, slot.id)
  {
    var link := s.links[h];
    assert LinkOk(s, link);
    if link.to == To(g) {
      WithoutMembers(s.signals[g].now.slots, link.id, slot);
    }
  }

  /** Exactly which slots a living signal has after any step */
  lemma {:induction false} SlotExact(s: Hub, step: Step, g: Name, slot: Slot)
    requires Inv(s) && Enabled(s, step) && s.Alive(g) && step != DestroySignal(g)
    ensures Apply(s, step).Alive(g)
    ensures slot in Apply(s, step).signals[g].now.slots <==>
            (slot in s.signals[g].now.slots && !LetsGo(s, step, g, slot.id)) || slot in Adds(s, step, g)
  {
    match step
    case Disconnect(h) => DisconnectSlots(s, h, g, slot);
    case DestroyManaged(h) => DisconnectSlots(s, h, g, slot);
    case Assign(h, from) => DisconnectSlots(s, h, g, slot);
    case _ => SlotsKept(s, step, g);
  }

  /** In this step of a history somebody lets go of the slot. */
  predicate LetGoAt(steps: seq<Step>, j: nat, g: Name, id: nat)
    requires j < |steps|
  {
    CanRun(steps[..j]) && LetsGo(Exec(steps[..j]), steps[j], g, id)
  }

  predicate HasSlot(s: Hub, g: Name, slot: Slot) {
    g in s.signals && slot in s.signals[g].now.slots
  }

  predicate LetGoBetween(steps: seq<Step>, k: nat, n: nat, g: Name, id: nat)
    requires n <= |steps|
  {
    exists j :: k <= j < n && LetGoAt(steps, j, g, id)
  }

  lemma {:induction false} LetGoPrefix(steps: seq<Step>, k: nat, n: nat, g: Name, id: nat)
    requires k <= n < |steps|
    ensures LetGoBetween(steps, k, n + 1, g, id) <==> LetGoBetween(steps, k, n, g, id) || LetGoAt(steps, n, g, id)
    ensures LetGoBetween(steps[..n], k, n, g, id) <==> LetGoBetween(steps, k, n, g, id)
  {
    forall j | k <= j < n
      ensures LetGoAt(steps[..n], j, g, id) <==> LetGoAt(steps, j, g, id)
    {
      assert steps[..n][..j] == steps[..j];
    }
  }

  /** Main theorem: a function once connected is still connected at the end of a history if and only if the signal has
      lived that long and nobody let go of its slot: disconnected, destroyed or assigned over a managed connection that
      then stood for it. */
  lemma {:induction false} StaysConnected(steps: seq<Step>, k: nat, g: Name, slot: Slot)
    requires CanRun(steps) && k <= |steps| && Exec(steps).Alive(g)
    requires CanRun(steps[..k]) && HasSlot(Exec(steps[..k]), g, slot)
    ensures HasSlot(Exec(steps), g, slot) <==> !LetGoBetween(steps, k, |steps|, g, slot.id)
    ensures slot.id <= Exec(steps).signals[g].now.counter
    decreases |steps|
  {
    RunInv(steps);
    if k == |steps| {
      assert steps[..k] == steps;
      var r := Exec(steps).signals[g];
      LiveIncreasing(r.made, r.cut);
    } else {
      var n := |steps| - 1;
      var s := Exec(steps[..n]);
      RunInv(steps[..n]);
      StepOnward(s, steps[n]);
      OnlyOnward(steps, k);
      OnlyOnward(steps[..n], k);
      assert steps[..n][..k] == steps[..k];
      StaysConnected(steps[..n], k, g, slot);
      SlotExact(s, steps[n], g, slot);
      CounterGrows(s, steps[n], g);
      LetGoPrefix(steps, k, n, g, slot.id);
    }
  }

  lemma {:induction false} CounterGrows(s: Hub, step: Step, g: Name)
    requires Enabled(s, step) && g in s.signals
    ensures g in Apply(s, step).signals && s.signals[g].now.counter <= Apply(s, step).signals[g].now.counter
  {
  }

  // ----- what connections stand for

  /** A copy can disconnect exactly if the original can, and a moved connection if the one moved from could,
      which no longer can; all others are as they were. A default-constructed one never can. */
  lemma {:induction false} HandlesExact(s: Hub, step: Step, k: Handle)
    requires Inv(s) && Enabled(s, step)
             && (step.Copy? || step.Move? || step.Default? || step.Make? || step.DestroyPlain?)
    ensures var t := Apply(s, step);
            k in t.links ==>
              (Disconnects(t, k) <==>
               match step
               case Copy(h, from) => Disconnects(s, if k == h then from else k)
               case Move(h, from) =>
                 if h == from then Disconnects(s, k) else (k != from && Disconnects(s, if k == h then from else k))
               case Default(h, _) => k != h && Disconnects(s, k)
               case _ => Disconnects(s, k))
  {
    if k in s.links {
      assert LinkOk(s, s.links[k]);
    }
  }

  /** With the signal gone, no connection to it tests true or disconnects, and nothing is called. */
  lemma {:induction false} DestroyedExpires(s: Hub, g: Name, h: Handle)
    requires s.Alive(g) && h in s.links
    ensures var t := Apply(s, DestroySignal(g));
            && t.signals[g].now.slots == []
            && h in t.links
            && (t.links[h].to == To(g) ==> !Usable(t, t.links[h]) && !Disconnects(t, h))
  {
  }
}
