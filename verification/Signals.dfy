/** Signals, the connections handed out for them, and connections that disconnect themselves. */
module Signals {
  /** The identity of a callable */
  type Callable = int

  datatype Slot = Slot(id: nat, callee: Callable)

  /** The slots left when the one with this ID is erased */
  function Without(slots: seq<Slot>, id: nat): seq<Slot>
    decreases |slots|
  {
    if slots == [] then []
    else
      var n := |slots| - 1;
      if slots[n].id == id then Without(slots[..n], id) else Without(slots[..n], id) + [slots[n]]
  }

  function Functions(slots: seq<Slot>): (fs: seq<Callable>)
    ensures |fs| == |slots| && forall i :: 0 <= i < |slots| ==> fs[i] == slots[i].callee
  {
    seq(|slots|, i requires 0 <= i < |slots| => slots[i].callee)
  }

  predicate Holds(slots: seq<Slot>, id: nat) {
    exists i :: 0 <= i < |slots| && slots[i].id == id
  }

  predicate Increasing(slots: seq<Slot>) {
    forall i, j :: 0 <= i < j < |slots| ==> slots[i].id < slots[j].id
  }

  // ----- what happens to a signal

  /** A signal: whether it exists, the last slot ID given, and its slots */
  datatype State = State(alive: bool, counter: nat, slots: seq<Slot>)

  const NEW: State := State(true, 0, [])

  function Connected(s: State, callee: Callable): State {
    s.(counter := s.counter + 1, slots := s.slots + [Slot(s.counter + 1, callee)])
  }

  /** There is something to disconnect under this slot ID, which 0 never is. */
  predicate CanCut(s: State, id: nat) {
    s.alive && id != 0 && Holds(s.slots, id)
  }

  function Cut(s: State, id: nat): State {
    if CanCut(s, id) then s.(slots := Without(s.slots, id)) else s
  }

  function Destroyed(s: State): State {
    s.(alive := false, slots := [])
  }

  // ----- the classes

  class Signal {
    var alive: bool // the shared disconnector exists
    var slotIdCounter: nat
    var slots: seq<Slot>

    ghost predicate Valid()
      reads this
    {
      Increasing(slots) && Below(slots, slotIdCounter + 1)
    }

    function Now(): State
      reads this
    {
      State(alive, slotIdCounter, slots)
    }

    constructor ()
      ensures Valid() && Now() == NEW
    {
      alive, slotIdCounter, slots := true, 0, [];
    }

    method Connect(callee: Callable) returns (c: Connection)
      requires Valid()
      modifies this`slotIdCounter, this`slots
      ensures Valid() && Now() == Connected(old(Now()), callee)
      ensures fresh(c) && c.dc == this && c.slotId == slotIdCounter
    {
      slotIdCounter := slotIdCounter + 1;
      slots := slots + [Slot(slotIdCounter, callee)];
      c := new Connection(this, slotIdCounter);
    }

    /** Erase the slot this connection stands for, if it is still there, and reset the connection. */
    method Disconnect(c: Connection) returns (ok: bool)
      requires Valid() && alive
      modifies this`slots, c
      ensures Valid()
      ensures ok == (old(c.dc) == this && CanCut(old(Now()), old(c.slotId)))
      ensures Now() == if ok then Cut(old(Now()), old(c.slotId)) else old(Now())
      ensures if ok then c.dc == null && c.slotId == 0 else c.dc == old(c.dc) && c.slotId == old(c.slotId)
    {
      if !c.Usable() {
        return false;
      }
      ghost var id := c.slotId;
      var kept;
      kept, ok := EraseMatching(c);
      if !Holds(slots, id) {
        WithoutAbsent(slots, id);
      }
      WithoutIncreasing(slots, id, slotIdCounter + 1);
      slots := kept;
    }

    /** The pass of erase_if: the slots kept, and the connection reset at the first match, after which it
        matches no more */
    method EraseMatching(c: Connection) returns (kept: seq<Slot>, found: bool)
      requires Increasing(slots)
      modifies c
      ensures found == (old(c.dc) == this && Holds(slots, old(c.slotId)))
      ensures kept == if old(c.dc) == this then Without(slots, old(c.slotId)) else slots
      ensures if found then c.dc == null && c.slotId == 0 else c.dc == old(c.dc) && c.slotId == old(c.slotId)
    {
      kept, found := [], false;
      ghost var id, mine := c.slotId, c.dc == this;
      for i := 0 to |slots|
        invariant found == (mine && Holds(slots[..i], id))
        invariant kept == if mine then Without(slots[..i], id) else slots[..i]
        invariant if found then c.dc == null && c.slotId == 0 else c.dc == old(c.dc) && c.slotId == id
      {
        OneMoreSlot(slots, i, id);
        if c.dc == this && c.slotId == slots[i].id {
          c.dc := null;
          c.slotId := 0;
          found := true;
        } else {
          kept := kept + [slots[i]];
        }
      }
      assert slots[..|slots|] == slots;
    }

    /** The functions called, in order */
    method Emit() returns (calls: seq<Callable>)
      ensures calls == Functions(slots)
    {
      calls := [];
      for i := 0 to |slots|
        invariant calls == Functions(slots)[..i]
      {
        calls := calls + [slots[i].callee];
      }
    }

    method Destroy()
      modifies this
      ensures Now() == Destroyed(old(Now()))
    {
      alive, slots := false, [];
    }
  }

  class Connection {
    var dc: Signal? // a weak pointer: it counts as null once the signal is gone
    var slotId: nat

    constructor (dc: Signal?, slotId: nat)
      ensures this.dc == dc && this.slotId == slotId
    {
      this.dc, this.slotId := dc, slotId;
    }

    /** operator bool */
    predicate Usable()
      reads this, dc
    {
      slotId != 0 && dc != null && dc.alive
    }

    predicate SameAs(other: Connection)
      reads this, other, dc, other.dc
    {
      slotId == other.slotId && Target() == other.Target()
    }

    /** What the weak pointer locks to */
    function Target(): Signal?
      reads this, dc
    {
      if dc != null && dc.alive then dc else null
    }

    /** Works exactly if the signal still exists and has the slot; that alone goes, and the connection is reset. */
    method Disconnect() returns (ok: bool)
      requires dc != null ==> dc.Valid()
      modifies this, dc
      ensures old(dc) != null ==> old(dc).Valid()
      ensures ok == (old(dc) != null && CanCut(old(dc.Now()), old(slotId)))
      ensures old(dc) != null ==> old(dc).Now() == Cut(old(dc.Now()), old(slotId))
      ensures if ok then dc == null && slotId == 0 else dc == old(dc) && slotId == old(slotId)
    {
      if dc == null || !dc.alive {
        return false;
      }
      ok := dc.Disconnect(this);
    }

    /** ManagedConnection's move assignment from another managed connection */
    method MoveAssign(c: Connection)
      requires dc != null ==> dc.Valid()
      modifies this, dc, c
      ensures old(SameAs(c)) ==>
                dc == old(dc) && slotId == old(slotId) && c.dc == old(c.dc) && c.slotId == old(c.slotId)
      ensures !old(SameAs(c)) ==>
                dc == old(c.dc) && slotId == old(c.slotId) && c.dc == null && c.slotId == old(c.slotId)
      ensures old(dc) != null ==>
                old(dc).Valid() && old(dc).Now() == if old(SameAs(c)) then old(dc.Now())
                    else Cut(old(dc.Now()), old(slotId))
    {
      if SameAs(c) {
        return;
      }
      var _ := Disconnect();
      dc, slotId := c.dc, c.slotId;
      c.dc := null;
    }
  }

  lemma HoldsSnoc(slots: seq<Slot>, slot: Slot, id: nat)
    ensures Holds(slots + [slot], id) <==> Holds(slots, id) || slot.id == id
  {
    var more := slots + [slot];
    if Holds(slots, id) {
      var i :| 0 <= i < |slots| && slots[i].id == id;
      assert more[i].id == id;
    }
    if slot.id == id {
      assert more[|slots|].id == id;
    }
  }

  lemma OneMoreSlot(slots: seq<Slot>, i: nat, id: nat)
    requires Increasing(slots) && i < |slots|
    ensures Without(slots[..i + 1], id) == Without(slots[..i], id) + if slots[i].id == id then [] else [slots[i]]
    ensures Holds(slots[..i + 1], id) <==> Holds(slots[..i], id) || slots[i].id == id
    ensures Holds(slots[..i], id) ==> slots[i].id != id
  {
    assert slots[..i + 1][..i] == slots[..i];
    assert slots[..i + 1] == slots[..i] + [slots[i]];
    HoldsSnoc(slots[..i], slots[i], id);
  }

  lemma {:induction false} WithoutAbsent(slots: seq<Slot>, id: nat)
    requires !Holds(slots, id)
    ensures Without(slots, id) == slots
    decreases |slots|
  {
    if slots == [] {
    } else {
      var n := |slots| - 1;
      assert slots == slots[..n] + [slots[n]];
      HoldsSnoc(slots[..n], slots[n], id);
      WithoutAbsent(slots[..n], id);
    }
  }

  lemma {:induction false} WithoutMembers(slots: seq<Slot>, id: nat, slot: Slot)
    ensures slot in Without(slots, id) <==> slot in slots && slot.id != id
    decreases |slots|
  {
    if slots == [] {
    } else {
      var n := |slots| - 1;
      WithoutMembers(slots[..n], id, slot);
      assert slots == slots[..n] + [slots[n]];
    }
  }

  predicate Below(slots: seq<Slot>, bound: nat) {
    forall i :: 0 <= i < |slots| ==> slots[i].id < bound
  }

  lemma {:induction false} WithoutIncreasing(slots: seq<Slot>, id: nat, bound: nat)
    requires Increasing(slots) && Below(slots, bound)
    ensures Increasing(Without(slots, id)) && Below(Without(slots, id), bound)
    decreases |slots|
  {
    if slots == [] {
    } else {
      var n := |slots| - 1;
      WithoutIncreasing(slots[..n], id, slots[n].id);
    }
  }
}
