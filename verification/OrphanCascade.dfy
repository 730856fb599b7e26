/** What repeated updates do to entities whose parents go: deletion works its way down, one level an update,
    and stops at the largest set of unmarked entities that contains their parents. */
module OrphanCascade {
  import opened Entities
  import opened Scenes

  /** Nothing above this entity matters: it has no parent, or it is networked while there is no network to
      delete it over. */
  predicate Free(h: Host, id: EntityID)
    requires id in h.scene
  {
    h.scene[id].info.parentID == 0 || (id >= 0 && !h.networkReady)
  }

  function Parent(h: Host, id: EntityID): EntityID
    requires id in h.scene
  {
    h.scene[id].info.parentID
  }

  /** k updates */
  function Updates(h: Host, k: nat): Host {
    if k == 0 then h else Next(Updates(h, k - 1))
  }

  predicate Settled(h: Host) {
    Next(h) == h
  }

  /** Of an entity and its ancestors, the k nearest are there and unmarked, and the next is there. */
  predicate Alive(h: Host, id: EntityID, k: nat)
    decreases k
  {
    id in h.scene && (k == 0 || (!h.scene[id].remove && (Free(h, id) || Alive(h, Parent(h, id), k - 1))))
  }

  lemma {:induction false} AliveFalls(h: Host, id: EntityID, k: nat)
    requires Alive(h, id, k + 1)
    ensures Alive(h, id, k)
    decreases k
  {
    if k == 0 || Free(h, id) {
    } else {
      AliveFalls(h, Parent(h, id), k - 1);
    }
  }

  lemma {:induction false} AliveEarlier(h: Host, id: EntityID, j: nat, k: nat)
    requires Alive(h, id, k) && j <= k
    ensures Alive(h, id, j)
    decreases k
  {
    if j == k {
    } else {
      AliveFalls(h, id, k - 1);
      AliveEarlier(h, id, j, k - 1);
    }
  }

  /** The part of the host's scene with these entities */
  ghost predicate Holds(h: Host, after: Host, ids: iset<EntityID>) {
    && after == h.(scene := after.scene)
    && (forall id :: id in after.scene <==> id in ids)
    && (forall id :: id in after.scene ==> id in h.scene && after.scene[id] == h.scene[id])
  }

  ghost function AliveSet(h: Host, k: nat): iset<EntityID> {
    iset id | Alive(h, id, k)
  }

  /** Main theorem: exactly what is left after k updates, and it is unchanged. */
  lemma {:induction false} AfterUpdates(h: Host, k: nat)
    ensures Holds(h, Updates(h, k), AliveSet(h, k))
  {
    if k == 0 {
    } else {
      AfterUpdates(h, k - 1);
      var before := Updates(h, k - 1);
      forall id
        ensures id in Next(before).scene <==> Alive(h, id, k)
      {
        OneMore(h, before, id, k - 1);
      }
    }
  }

  lemma OneMore(h: Host, before: Host, id: EntityID, k: nat)
    requires Holds(h, before, AliveSet(h, k))
    ensures id in Next(before).scene <==> Alive(h, id, k + 1)
  {
    if Alive(h, id, k + 1) {
      AliveFalls(h, id, k);
    }
    if id in before.scene && !Free(h, id) {
      assert Parent(h, id) in before.scene <==> Alive(h, Parent(h, id), k);
    }
  }

  // ----- where it stops

  /** A set of unmarked entities that contains their parents */
  predicate Closed(h: Host, ids: set<EntityID>) {
    forall id :: id in ids ==> id in h.scene && !h.scene[id].remove && (Free(h, id) || Parent(h, id) in ids)
  }

  ghost predicate IsLargestClosed(h: Host, ids: set<EntityID>) {
    Closed(h, ids) && forall c :: Closed(h, c) ==> c <= ids
  }

  /** Nothing closed is ever lost. */
  lemma {:induction false} ClosedStays(h: Host, c: set<EntityID>, id: EntityID, k: nat)
    requires Closed(h, c) && id in c
    ensures Alive(h, id, k)
    decreases k
  {
    if k == 0 || Free(h, id) {
    } else {
      ClosedStays(h, c, Parent(h, id), k - 1);
    }
  }

  lemma NextScene(h: Host, id: EntityID)
    ensures id in Next(h).scene <==> id in h.scene && !h.scene[id].remove && (Free(h, id) || Parent(h, id) in h.scene)
    ensures id in Next(h).scene ==> Next(h).scene[id] == h.scene[id]
  {
  }

  lemma SameKeys(h: Host)
    ensures Next(h) == h.(scene := Next(h).scene) && Next(h).scene.Keys <= h.scene.Keys
    ensures Settled(h) <==> Next(h).scene.Keys == h.scene.Keys
  {
    var after := Next(h);
    if after.scene.Keys == h.scene.Keys {
      forall id | id in h.scene
        ensures id in after.scene && after.scene[id] == h.scene[id]
      {
        NextScene(h, id);
        assert id in after.scene.Keys;
      }
      assert after.scene == h.scene;
    }
  }

  /** An update changes nothing exactly when the whole scene is closed. */
  lemma SettledIsClosed(h: Host)
    ensures Settled(h) <==> Closed(h, h.scene.Keys)
  {
    SameKeys(h);
    forall id | id in h.scene
      ensures id in Next(h).scene <==> !h.scene[id].remove && (Free(h, id) || Parent(h, id) in h.scene.Keys)
    {
      NextScene(h, id);
    }
    if Closed(h, h.scene.Keys) {
      forall id | id in h.scene.Keys
        ensures id in Next(h).scene.Keys
      {
      }
    }
  }

  /** When it stops it stops at the largest closed set. */
  lemma SettledIsLargest(h: Host, k: nat)
    requires Settled(Updates(h, k))
    ensures IsLargestClosed(h, Updates(h, k).scene.Keys)
  {
    var after := Updates(h, k);
    AfterUpdates(h, k);
    SettledIsClosed(after);
    forall id | id in after.scene.Keys
      ensures id in h.scene && !h.scene[id].remove && (Free(h, id) || Parent(h, id) in after.scene.Keys)
    {
      assert Free(after, id) == Free(h, id) && Parent(after, id) == Parent(h, id);
    }
    forall c | Closed(h, c)
      ensures c <= after.scene.Keys
    {
      forall id | id in c
        ensures id in after.scene.Keys
      {
        ClosedStays(h, c, id, k);
      }
    }
  }

  /** An update that changes something makes the scene smaller. */
  lemma UpdateShrinks(h: Host)
    ensures Settled(h) || |Next(h).scene.Keys| < |h.scene.Keys|
  {
    SameKeys(h);
    if !Settled(h) {
      SmallerSet(Next(h).scene.Keys, h.scene.Keys);
    }
  }

  lemma SmallerSet(a: set<EntityID>, b: set<EntityID>)
    requires a <= b && a != b
    ensures |a| < |b|
  {
    var extra := b - a;
    assert b == a + extra;
  }

  lemma {:induction false} Settles(h: Host, k: nat)
    ensures Settled(Updates(h, k)) || |Updates(h, k).scene.Keys| + k <= |h.scene.Keys|
    decreases k
  {
    if k == 0 {
    } else {
      Settles(h, k - 1);
      UpdateShrinks(Updates(h, k - 1));
    }
  }

  /** Whatever the scene, cycles of parents included, as many updates as there are entities reach the end. */
  lemma Fixpoint(h: Host)
    ensures var after := Updates(h, |h.scene.Keys|); Settled(after) && IsLargestClosed(h, after.scene.Keys)
  {
    Settles(h, |h.scene.Keys|);
    UpdateShrinks(Updates(h, |h.scene.Keys|));
    SettledIsLargest(h, |h.scene.Keys|);
  }

  // ----- how soon it stops

  /** How deep every entity is: below its parent, if that is there */
  ghost predicate Depths(h: Host, depth: map<EntityID, nat>) {
    forall id :: id in h.scene ==>
      id in depth && (Parent(h, id) in h.scene && Parent(h, id) != 0
          ==> Parent(h, id) in depth && depth[Parent(h, id)] < depth[id])
  }

  /** What an entity's own depth and one update more have not removed stays. */
  lemma {:induction false} DepthDecides(h: Host, depth: map<EntityID, nat>, id: EntityID, k: nat)
    requires Depths(h, depth) && id in h.scene && Alive(h, id, depth[id] + 1)
    ensures Alive(h, id, k)
    decreases k
  {
    if k == 0 || Free(h, id) {
    } else {
      var parent := Parent(h, id);
      AliveEarlier(h, parent, depth[parent] + 1, depth[id]);
      DepthDecides(h, depth, parent, k - 1);
    }
  }

  /** In a forest of height n (a lone root has height 0), n + 1 updates are enough. */
  lemma HeightBound(h: Host, depth: map<EntityID, nat>, n: nat)
    requires Depths(h, depth) && forall id :: id in h.scene ==> depth[id] <= n
    ensures var after := Updates(h, n + 1); Settled(after) && IsLargestClosed(h, after.scene.Keys)
  {
    var after := Updates(h, n + 1);
    AfterUpdates(h, n + 1);
    AfterUpdates(h, n + 2);
    assert Next(after) == Updates(h, n + 2);
    forall id | id in after.scene.Keys
      ensures id in Next(after).scene.Keys
    {
      LastsForever(h, depth, id, n);
    }
    SameKeys(after);
    SettledIsLargest(h, n + 1);
  }

  lemma LastsForever(h: Host, depth: map<EntityID, nat>, id: EntityID, n: nat)
    requires Depths(h, depth) && forall id :: id in h.scene ==> depth[id] <= n
    requires Alive(h, id, n + 1)
    ensures Alive(h, id, n + 2)
  {
    AliveEarlier(h, id, depth[id] + 1, n + 1);
    DepthDecides(h, depth, id, n + 2);
  }

  /** The parent, and its parent, and so on, n times */
  function Ancestor(h: Host, id: EntityID, n: nat): EntityID
    decreases n
  {
    if n == 0 || id !in h.scene then id else Ancestor(h, Parent(h, id), n - 1)
  }

  predicate IntactBelow(h: Host, id: EntityID, n: nat) {
    forall i :: 0 <= i < n ==> Intact(h, Ancestor(h, id, i))
  }

  predicate Intact(h: Host, id: EntityID) {
    id in h.scene && !h.scene[id].remove && !Free(h, id)
  }

  /** The bound is exact: whatever has its nearest marked ancestor n levels up goes in update n + 1. */
  lemma {:induction false} GoesExactlyAt(h: Host, id: EntityID, n: nat, k: nat)
    requires IntactBelow(h, id, n)
    requires Ancestor(h, id, n) in h.scene && h.scene[Ancestor(h, id, n)].remove
    ensures id in Updates(h, k).scene <==> k <= n
  {
    AfterUpdates(h, k);
    AliveExactly(h, id, n, k);
  }

  lemma {:induction false} AliveExactly(h: Host, id: EntityID, n: nat, k: nat)
    requires IntactBelow(h, id, n)
    requires Ancestor(h, id, n) in h.scene && h.scene[Ancestor(h, id, n)].remove
    ensures Alive(h, id, k) <==> k <= n
    decreases k
  {
    if n == 0 {
    } else {
      assert Intact(h, Ancestor(h, id, 0));
      if k > 0 {
        forall i | 0 <= i < n - 1
          ensures Intact(h, Ancestor(h, Parent(h, id), i))
        {
          assert Intact(h, Ancestor(h, id, i + 1));
        }
        AliveExactly(h, Parent(h, id), n - 1, k - 1);
      }
    }
  }

  // ----- what one update says and calls

  /** Every orphan that has to be deleted over the network is broadcast once, and nothing else is. */
  lemma {:induction false} DeletionsExact(h: Host, ids: seq<EntityID>, id: EntityID)
    requires forall i, j :: 0 <= i < j < |ids| ==> ids[i] < ids[j]
    ensures multiset(OrphanDeletions(h, ids))[Deletion(id)] == if id in ids && Doomed(h, id) && id >= 0 then 1 else 0
    ensures forall m :: m in OrphanDeletions(h, ids) ==> m.Deletion?
    decreases |ids|
  {
    if ids == [] {
    } else {
      var init := ids[..|ids| - 1];
      DeletionsExact(h, init, id);
      assert ids == init + [ids[|ids| - 1]];
    }
  }

  /** Entities are updated in order of their IDs, each once, and none whose parent is absent. */
  lemma {:induction false} UpdatedExact(h: Host, ids: seq<EntityID>)
    requires forall i, j :: 0 <= i < j < |ids| ==> ids[i] < ids[j]
    ensures var r := Updated(h, ids);
            && (forall i, j :: 0 <= i < j < |r| ==> r[i] < r[j])
            && (forall id :: id in r <==> id in ids && !Orphan(h.scene, id))
    decreases |ids|
  {
    if ids == [] {
    } else {
      var init := ids[..|ids| - 1];
      UpdatedExact(h, init);
      assert ids == init + [ids[|ids| - 1]];
      var r := Updated(h, init);
      forall i | 0 <= i < |r|
        ensures r[i] < ids[|ids| - 1]
      {
        assert r[i] in init;
      }
    }
  }

  lemma OneUpdate(h: Host, id: EntityID)
    ensures multiset(Update(h).sent)[Deletion(id)] == if Orphan(h.scene, id) && id >= 0 && h.networkReady then 1 else 0
    ensures id in Updated(h, Ascending(h.scene.Keys)) <==>
            id in h.scene && (h.scene[id].info.parentID == 0 || h.scene[id].info.parentID in h.scene)
  {
    var ids := Ascending(h.scene.Keys);
    DeletionsExact(h, ids, id);
    UpdatedExact(h, ids);
    assert id in ids <==> id in h.scene.Keys;
  }
}
