/** Socket slots of one owner: generation-checked handles and coalesced readiness
    (pro-stack/socket_owner.c). */
module OwnerSlots {
  const PERIOD := 0xFFFF_FFFF  // generations 1 to 2^32 - 1

  /** A socket in its slot: `mask` collects ready events, `queued` says that one
      event for it is in the ready ring. */
  datatype Slot = Vacant | Live(socket: nat, protocol: int, generation: nat, mask: set<int>, queued: bool)

  datatype Handle = Handle(id: nat, generation: nat, protocol: int)

  datatype Report = Report(handle: Handle, mask: set<int>)

  datatype Found = Nobody | Socket(socket: nat)

  /** The generation after `epoch` retirements; zero stays reserved. */
  function GenerationOf(epoch: nat): nat { epoch % PERIOD + 1 }

  /** The free stack names every vacant slot exactly once. */
  ghost predicate FreeExactly(free: seq<nat>, slots: seq<Slot>) {
    && (forall k :: 0 <= k < |free| ==> free[k] < |slots| && slots[free[k]].Vacant?)
    && (forall j, k :: 0 <= j < k < |free| ==> free[j] != free[k])
    && (forall i :: 0 <= i < |slots| && slots[i].Vacant? ==> i in free)
  }

  lemma PopFree(free: seq<nat>, slots: seq<Slot>, s: Slot)
    requires FreeExactly(free, slots) && free != [] && s.Live?
    ensures free[|free| - 1] < |slots| && FreeExactly(free[..|free| - 1], slots[free[|free| - 1] := s])
  {
    var n := |free| - 1;
    var to := slots[free[n] := s];
    forall i | 0 <= i < |to| && to[i].Vacant?
      ensures i in free[..n]
    {
      var k :| 0 <= k < |free| && free[k] == i;
      assert free[..n][k] == i;
    }
  }

  lemma PushFree(free: seq<nat>, slots: seq<Slot>, id: nat)
    requires FreeExactly(free, slots) && id < |slots| && slots[id].Live?
    ensures FreeExactly(free + [id], slots[id := Vacant])
  {
    var to, more := slots[id := Vacant], free + [id];
    forall i | 0 <= i < |to| && to[i].Vacant?
      ensures i in more
    {
      if i != id {
        var k :| 0 <= k < |free| && free[k] == i;
        assert more[k] == i;
      } else {
        assert more[|free|] == id;
      }
    }
  }

  /** As many free entries as vacant slots: the stack never overflows. */
  lemma FreeFits(free: seq<nat>, slots: seq<Slot>, id: nat)
    requires FreeExactly(free, slots) && id < |slots| && slots[id].Live?
    ensures |free| < |slots|
  {
    var names := Members(free);
    var all := Below(|slots|);
    DistinctCount(free);
    BelowFacts(|slots|);
    assert names <= all - {id};
    SubsetCount(names, all - {id});
  }

  ghost function Members(q: seq<nat>): (all: set<nat>)
    ensures forall x :: x in all <==> x in q
  {
    if q == [] then {} else {q[0]} + Members(q[1..])
  }

  lemma {:induction false} DistinctCount(q: seq<nat>)
    requires forall j, k :: 0 <= j < k < |q| ==> q[j] != q[k]
    ensures |Members(q)| == |q|
  {
    if q != [] {
      DistinctCount(q[1..]);
    }
  }

  /** The numbers below `n`. */
  ghost function Below(n: nat): set<nat> {
    if n == 0 then {} else Below(n - 1) + {n - 1}
  }

  lemma {:induction false} BelowFacts(n: nat)
    ensures |Below(n)| == n && forall x: nat :: x in Below(n) <==> x < n
  {
    if n > 0 { BelowFacts(n - 1); }
  }

  lemma {:induction false} SubsetCount(a: set<nat>, b: set<nat>)
    requires a <= b
    ensures |a| <= |b| && (|a| == |b| ==> a == b)
    decreases a
  {
    if a != {} {
      var x :| x in a;
      SubsetCount(a - {x}, b - {x});
      assert a == (a - {x}) + {x} && b == (b - {x}) + {x};
    }
  }

  /** One socket and the ready ring: a socket with events has exactly one event of its
      own epoch queued, or the overflow flag is set. */
  ghost predicate PostedAt(s: Slot, i: nat, epoch: nat, ring: seq<Handle>, issue: seq<nat>, overflow: bool)
    requires |ring| == |issue|
  {
    match s
    case Vacant => !Queued(ring, issue, i, epoch)
    case Live(_, _, _, mask, queued) =>
      (queued <==> Queued(ring, issue, i, epoch)) && (queued ==> mask != {}) && (mask != {} && !queued ==> overflow)
  }

  ghost predicate Queued(ring: seq<Handle>, issue: seq<nat>, i: nat, epoch: nat)
    requires |ring| == |issue|
  {
    exists k :: 0 <= k < |ring| && ring[k].id == i && issue[k] == epoch
  }

  /** Queued events were made for sockets: their generation is that of the epoch they were
      posted in, and no two are for the same socket. */
  ghost predicate Genuine(ring: seq<Handle>, issue: seq<nat>, slots: seq<Slot>, epochs: seq<nat>) {
    && |ring| == |issue| && |slots| == |epochs|
    && (forall k :: 0 <= k < |ring| ==>
         ring[k].id < |slots| && ring[k].generation == GenerationOf(issue[k]) && issue[k] <= epochs[ring[k].id])
    && (forall k :: 0 <= k < |ring| && issue[k] == epochs[ring[k].id] && slots[ring[k].id].Live? ==>
         ring[k].protocol == slots[ring[k].id].protocol)
    && (forall j, k :: 0 <= j < k < |ring| ==> ring[j].id != ring[k].id || issue[j] != issue[k])
  }

  ghost predicate Posted(ring: seq<Handle>, issue: seq<nat>, slots: seq<Slot>, epochs: seq<nat>, overflow: bool) {
    && Genuine(ring, issue, slots, epochs)
    && forall i :: 0 <= i < |slots| ==> PostedAt(slots[i], i, epochs[i], ring, issue, overflow)
  }

  lemma PostedAdopt(ring: seq<Handle>, issue: seq<nat>, slots: seq<Slot>, epochs: seq<nat>, overflow: bool, id: nat,
                    s: Slot)
    requires
      && Posted(ring, issue, slots, epochs, overflow) && id < |slots| && slots[id].Vacant? && s.Live? && s.mask == {}
      && !s.queued
    ensures Posted(ring, issue, slots[id := s], epochs, overflow)
  {
    hide Queued;
    assert PostedAt(slots[id], id, epochs[id], ring, issue, overflow);
    NotQueued(ring, issue, id, epochs[id]);
    forall i | 0 <= i < |slots|
      ensures PostedAt(slots[id := s][i], i, epochs[i], ring, issue, overflow)
    {
      assert PostedAt(slots[i], i, epochs[i], ring, issue, overflow);
    }
  }

  lemma NotQueued(ring: seq<Handle>, issue: seq<nat>, i: nat, epoch: nat)
    requires |ring| == |issue| && !Queued(ring, issue, i, epoch)
    ensures forall k :: 0 <= k < |ring| && ring[k].id == i ==> issue[k] != epoch
  {
  }

  lemma PostedRetire(ring: seq<Handle>, issue: seq<nat>, slots: seq<Slot>, epochs: seq<nat>, overflow: bool, id: nat)
    requires Posted(ring, issue, slots, epochs, overflow) && id < |slots|
    ensures Posted(ring, issue, slots[id := Vacant], epochs[id := epochs[id] + 1], overflow)
  {
    var to, later := slots[id := Vacant], epochs[id := epochs[id] + 1];
    forall i | 0 <= i < |slots|
      ensures PostedAt(to[i], i, later[i], ring, issue, overflow)
    {
      assert PostedAt(slots[i], i, epochs[i], ring, issue, overflow);
    }
  }

  lemma PostedMask(ring: seq<Handle>, issue: seq<nat>, slots: seq<Slot>, epochs: seq<nat>, overflow: bool, more: bool,
                   id: nat, s: Slot)
    requires
      && Posted(ring, issue, slots, epochs, overflow) && id < |slots| && slots[id].Live? && s.Live?
      && s.protocol == slots[id].protocol
    requires
      && s.queued == slots[id].queued && (s.queued ==> s.mask != {}) && (overflow ==> more)
      && (s.mask != {} && !s.queued ==> more)
    ensures Posted(ring, issue, slots[id := s], epochs, more)
  {
    hide Queued;
    forall i | 0 <= i < |slots|
      ensures PostedAt(slots[id := s][i], i, epochs[i], ring, issue, more)
    {
      assert PostedAt(slots[i], i, epochs[i], ring, issue, overflow);
    }
  }

  lemma PostedQueue(ring: seq<Handle>, issue: seq<nat>, slots: seq<Slot>, epochs: seq<nat>, overflow: bool, id: nat,
                    s: Slot, h: Handle)
    requires Posted(ring, issue, slots, epochs, overflow) && id < |slots| && slots[id].Live? && !slots[id].queued
    requires
      && s.Live? && s.protocol == slots[id].protocol && s.queued && s.mask != {}
      && h == Handle(id, GenerationOf(epochs[id]), s.protocol)
    ensures Posted(ring + [h], issue + [epochs[id]], slots[id := s], epochs, overflow)
  {
    var ring2, issue2, to := ring + [h], issue + [epochs[id]], slots[id := s];
    assert PostedAt(slots[id], id, epochs[id], ring, issue, overflow);
    NotQueued(ring, issue, id, epochs[id]);
    forall i | 0 <= i < |slots|
      ensures PostedAt(to[i], i, epochs[i], ring2, issue2, overflow)
    {
      assert PostedAt(slots[i], i, epochs[i], ring, issue, overflow);
      QueuedMore(ring, issue, h, epochs[id], i, epochs[i]);
    }
  }

  lemma QueuedMore(ring: seq<Handle>, issue: seq<nat>, h: Handle, e: nat, i: nat, epoch: nat)
    requires |ring| == |issue|
    ensures Queued(ring + [h], issue + [e], i, epoch) <==> Queued(ring, issue, i, epoch) || (h.id == i && e == epoch)
  {
    if Queued(ring, issue, i, epoch) {
      var k :| 0 <= k < |ring| && ring[k].id == i && issue[k] == epoch;
      assert (ring + [h])[k].id == i && (issue + [e])[k] == epoch;
    }
    if h.id == i && e == epoch { assert (ring + [h])[|ring|].id == i && (issue + [e])[|ring|] == epoch; }
  }

  lemma QueuedLess(ring: seq<Handle>, issue: seq<nat>, i: nat, epoch: nat)
    requires |ring| == |issue| > 0
    ensures Queued(ring, issue, i, epoch) <==>
              Queued(ring[1..], issue[1..], i, epoch) || (ring[0].id == i && issue[0] == epoch)
  {
    if Queued(ring, issue, i, epoch) {
      var k :| 0 <= k < |ring| && ring[k].id == i && issue[k] == epoch;
      if k > 0 { assert ring[1..][k - 1].id == i && issue[1..][k - 1] == epoch; }
    }
    if Queued(ring[1..], issue[1..], i, epoch) {
      var k :| 0 <= k < |ring| - 1 && ring[1..][k].id == i && issue[1..][k] == epoch;
      assert ring[k + 1].id == i && issue[k + 1] == epoch;
    }
  }

  lemma GenuineLess(ring: seq<Handle>, issue: seq<nat>, slots: seq<Slot>, epochs: seq<nat>)
    requires Genuine(ring, issue, slots, epochs) && ring != []
    ensures Genuine(ring[1..], issue[1..], slots, epochs)
    ensures ring[0].id < |slots| && !Queued(ring[1..], issue[1..], ring[0].id, issue[0])
  {
  }

  /** A stale event leaves the ring without a trace. */
  lemma PostedStale(ring: seq<Handle>, issue: seq<nat>, slots: seq<Slot>, epochs: seq<nat>, overflow: bool)
    requires
      && Posted(ring, issue, slots, epochs, overflow) && ring != [] && ring[0].id < |slots|
      && issue[0] != epochs[ring[0].id]
    ensures Posted(ring[1..], issue[1..], slots, epochs, overflow)
  {
    hide Queued;
    GenuineLess(ring, issue, slots, epochs);
    forall i | 0 <= i < |slots|
      ensures PostedAt(slots[i], i, epochs[i], ring[1..], issue[1..], overflow)
    {
      assert PostedAt(slots[i], i, epochs[i], ring, issue, overflow);
      QueuedLess(ring, issue, i, epochs[i]);
    }
  }

  /** A current event takes the socket's mask with it. */
  lemma PostedTake(ring: seq<Handle>, issue: seq<nat>, slots: seq<Slot>, epochs: seq<nat>, overflow: bool)
    requires
      && Posted(ring, issue, slots, epochs, overflow) && ring != [] && ring[0].id < |slots|
      && issue[0] == epochs[ring[0].id]
    ensures
      && slots[ring[0].id].Live? && slots[ring[0].id].queued && slots[ring[0].id].mask != {}
      && ring[0].protocol == slots[ring[0].id].protocol
    ensures Posted(ring[1..], issue[1..], slots[ring[0].id := slots[ring[0].id].(mask := {}, queued := false)], epochs,
                   overflow)
  {
    hide Queued;
    var id := ring[0].id;
    QueuedLess(ring, issue, id, epochs[id]);
    assert PostedAt(slots[id], id, epochs[id], ring, issue, overflow);
    var to := slots[id := slots[id].(mask := {}, queued := false)];
    GenuineLess(ring, issue, slots, epochs);
    forall i | 0 <= i < |slots|
      ensures PostedAt(to[i], i, epochs[i], ring[1..], issue[1..], overflow)
    {
      assert PostedAt(slots[i], i, epochs[i], ring, issue, overflow);
      QueuedLess(ring, issue, i, epochs[i]);
    }
  }

  lemma PostedCalm(ring: seq<Handle>, issue: seq<nat>, slots: seq<Slot>, epochs: seq<nat>)
    requires
      && Posted(ring, issue, slots, epochs, true)
      && forall i :: 0 <= i < |slots| && slots[i].Live? && slots[i].mask != {} ==> slots[i].queued
    ensures Posted(ring, issue, slots, epochs, false)
  {
    hide Queued;
    forall i | 0 <= i < |slots|
      ensures PostedAt(slots[i], i, epochs[i], ring, issue, false)
    {
      assert PostedAt(slots[i], i, epochs[i], ring, issue, true);
    }
  }

  /** A handle as it was given out: for which socket, after how many retirements. */
  datatype Grant = Grant(handle: Handle, socket: nat, epoch: nat)

  /** A handle that was not retired since still has its own socket in its slot. */
  ghost predicate Kept(g: Grant, slots: seq<Slot>, epochs: seq<nat>) {
    && g.handle.id < |slots| == |epochs| && g.handle.generation == GenerationOf(g.epoch)
    && g.epoch <= epochs[g.handle.id]
    && (g.epoch == epochs[g.handle.id] ==>
          var s := slots[g.handle.id];
          s.Live? && s.socket == g.socket && s.protocol == g.handle.protocol)
  }

  ghost predicate Honoured(given: seq<Grant>, slots: seq<Slot>, epochs: seq<nat>) {
    forall k :: 0 <= k < |given| ==> Kept(given[k], slots, epochs)
  }

  lemma HonouredMask(given: seq<Grant>, slots: seq<Slot>, epochs: seq<nat>, id: nat, s: Slot)
    requires Honoured(given, slots, epochs) && id < |slots| && slots[id].Live? && s.Live?
    requires s.socket == slots[id].socket && s.protocol == slots[id].protocol
    ensures Honoured(given, slots[id := s], epochs)
  {
    forall k | 0 <= k < |given| ensures Kept(given[k], slots[id := s], epochs) {
      assert Kept(given[k], slots, epochs);
    }
  }

  lemma HonouredAdopt(given: seq<Grant>, slots: seq<Slot>, epochs: seq<nat>, id: nat, s: Slot)
    requires Honoured(given, slots, epochs) && id < |slots| == |epochs| && slots[id].Vacant? && s.Live?
    ensures Honoured(given + [Grant(Handle(id, GenerationOf(epochs[id]), s.protocol), s.socket, epochs[id])],
                     slots[id := s], epochs)
  {
    forall k | 0 <= k < |given| ensures Kept(given[k], slots[id := s], epochs) {
      assert Kept(given[k], slots, epochs);
    }
  }

  lemma HonouredRetire(given: seq<Grant>, slots: seq<Slot>, epochs: seq<nat>, id: nat)
    requires Honoured(given, slots, epochs) && id < |slots| == |epochs|
    ensures Honoured(given, slots[id := Vacant], epochs[id := epochs[id] + 1])
  {
    forall k | 0 <= k < |given| ensures Kept(given[k], slots[id := Vacant], epochs[id := epochs[id] + 1]) {
      assert Kept(given[k], slots, epochs);
    }
  }

  class SlotTable {
    const capacity: nat
    const slots: array<Slot>
    const generations: array<nat>
    const freeIds: array<nat>
    var freeCount: nat
    var ring: seq<Handle>       // ready events
    var overflow: bool          // some event could not be queued
    var scan: nat               // where the recovery scan continues
    ghost var epochs: seq<nat>  // retirements of each slot so far
    ghost var issue: seq<nat>   // the epoch each queued event was posted in
    ghost var given: seq<Grant> // every handle given out

    /** The allocator: free ids are exactly the vacant slots, and a live slot carries
        the generation of its epoch. */
    ghost predicate Allocated()
      reads this`freeCount, this`epochs, slots, generations, freeIds
    {
      && generations != freeIds && slots.Length == generations.Length == freeIds.Length == capacity == |epochs|
      && freeCount <= capacity
      && FreeExactly(freeIds[..freeCount], slots[..])
      && (forall i :: 0 <= i < capacity ==>
           generations[i] == GenerationOf(epochs[i]) || (generations[i] == 0 && epochs[i] == 0 && slots[i].Vacant?))
      && (forall i :: 0 <= i < capacity && slots[i].Live? ==> slots[i].generation == generations[i])
    }

    ghost predicate Valid()
      reads this, slots, generations, freeIds
    {
      && Allocated() && (scan < capacity || scan == capacity == 0) && Posted(ring, issue, slots[..], epochs, overflow)
      && Honoured(given, slots[..], epochs)
    }

    constructor (capacity: nat)
      ensures
        && Valid() && freeCount == capacity && fresh(slots) && fresh(generations) && fresh(freeIds)
        && this.capacity == capacity
      ensures ring == [] && issue == [] && !overflow && scan == 0 && given == [] && epochs == seq(capacity, i => 0)
      ensures forall i :: 0 <= i < capacity ==> slots[i] == Vacant
    {
      this.capacity := capacity;
      slots := new Slot[capacity](i => Vacant);
      generations := new nat[capacity](i => 0);
      freeIds := new nat[capacity](i => i);
      freeCount := capacity;
      epochs := seq(capacity, i => 0);
      ring, issue, overflow, scan, given := [], [], false, 0, [];
      new;
      forall i | 0 <= i < capacity
        ensures i in freeIds[..freeCount]
      {
        assert freeIds[..freeCount][i] == i;
      }
    }

    /** `socket_owner_adopt` */
    method Adopt(socket: nat, protocol: int) returns (ok: bool, handle: Handle)
      requires Valid()
      modifies this`freeCount, this`given, slots, generations
      ensures Valid() && epochs == old(epochs) && (ok <==> exists i :: 0 <= i < capacity && old(slots[i]).Vacant?)
      ensures !ok ==> slots[..] == old(slots[..])
      ensures ok ==>
                && handle.id < capacity && old(slots[..])[handle.id].Vacant?
                && handle == Handle(handle.id, GenerationOf(epochs[handle.id]), protocol)
      ensures ok ==> slots[..] == old(slots[..])[handle.id := Live(socket, protocol, handle.generation, {}, false)]
      ensures given == old(given) + if ok then [Grant(handle, socket, epochs[handle.id])] else []
    {
      hide Posted, Honoured;
      ok, handle := false, Handle(0, 0, 0);
      ghost var free, was := freeIds[..freeCount], slots[..];
      if freeCount == 0 {
        assert free == [];
        return;
      }
      freeCount := freeCount - 1;
      var id := freeIds[freeCount];
      assert id == free[|free| - 1] && was[id].Vacant?;
      var generation := generations[id];
      if generation == 0 {
        generation := 1;
        generations[id] := generation;
      }
      var s := Live(socket, protocol, generation, {}, false);
      PopFree(free, was, s);
      PostedAdopt(ring, issue, was, epochs, overflow, id, s);
      HonouredAdopt(given, was, epochs, id, s);
      slots[id] := s;
      given := given + [Grant(Handle(id, generation, protocol), socket, epochs[id])];
      assert slots[..] == was[id := s] && freeIds[..freeCount] == free[..|free| - 1];
      return true, Handle(id, generation, protocol);
    }

    /** `socket_owner_retire`: the handle dies with the publication of the socket. */
    method Retire(id: nat, socket: nat)
      requires Valid()
      modifies this`freeCount, this`epochs, slots, generations, freeIds
      ensures Valid()
      ensures
        var hit := id < capacity && old(slots[..])[id].Live? && old(slots[..])[id].socket == socket;
        && slots[..] == (if hit then old(slots[..])[id := Vacant] else old(slots[..]))
        && epochs == (if hit then old(epochs)[id := old(epochs)[id] + 1] else old(epochs))
    {
      hide Posted, FreeExactly, GenerationOf, Honoured;
      if id >= capacity || !slots[id].Live? || slots[id].socket != socket {
        return;
      }
      PostedRetire(ring, issue, slots[..], epochs, overflow, id);
      HonouredRetire(given, slots[..], epochs, id);
      Recycle(id);
    }

    /** Vacate a slot: the next generation, and the id goes back on the stack. */
    method Recycle(id: nat)
      requires Allocated() && id < capacity && slots[id].Live?
      modifies this`freeCount, this`epochs, slots, generations, freeIds
      ensures
        && Allocated() && slots[..] == old(slots[..])[id := Vacant] && epochs == old(epochs)[id := old(epochs)[id] + 1]
    {
      hide FreeExactly, GenerationOf;
      ghost var free, was := freeIds[..freeCount], slots[..];
      PushFree(free, was, id);
      FreeFits(free, was, id);
      slots[id] := Vacant;
      var next := (generations[id] + 1) % 0x1_0000_0000;
      NextGeneration(epochs[id]);
      generations[id] := if next == 0 then 1 else next;
      if freeCount < capacity {
        freeIds[freeCount] := id;
        freeCount := freeCount + 1;
      }
      epochs := epochs[id := epochs[id] + 1];
      assert slots[..] == was[id := Vacant] && freeIds[..freeCount] == free + [id];
    }

    /** `owner_lookup`: a handle that was given out finds its own socket until it is retired,
        and nothing afterwards, for fewer than 2^32 - 1 retirements of its slot. */
    method Lookup(h: Handle) returns (r: Found)
      requires Allocated() && Honoured(given, slots[..], epochs)
      ensures r == Resolve(h)
      ensures forall k :: 0 <= k < |given| && given[k].handle == h && epochs[h.id] < given[k].epoch + PERIOD ==>
                r == if given[k].epoch == epochs[h.id] then Socket(given[k].socket) else Nobody
    {
      forall k | 0 <= k < |given| && given[k].handle == h && epochs[h.id] < given[k].epoch + PERIOD
        ensures Resolve(h) == if given[k].epoch == epochs[h.id] then Socket(given[k].socket) else Nobody
      {
        HandleLife(k);
      }
      if h.id >= capacity {
        return Nobody;
      }
      var s := slots[h.id];
      if s.Vacant? || s.generation != h.generation || s.protocol != h.protocol {
        return Nobody;
      }
      return Socket(s.socket);
    }

    ghost function Resolve(h: Handle): Found
      requires slots.Length == capacity
      reads slots
    {
      if h.id < capacity && slots[h.id].Live? && slots[h.id].generation == h.generation &&
        slots[h.id].protocol == h.protocol
      then Socket(slots[h.id].socket) else Nobody
    }

    /** Handle number `k` resolves to the socket it was given out for if and only if its slot
        was not retired since, and to nothing otherwise. */
    lemma HandleLife(k: nat)
      requires Allocated() && Honoured(given, slots[..], epochs) && k < |given|
      ensures var h := given[k].handle;
              && h.id < capacity == |epochs|
              && (epochs[h.id] < given[k].epoch + PERIOD ==>
                    && (Resolve(h) == Socket(given[k].socket) <==> given[k].epoch == epochs[h.id])
                    && (given[k].epoch != epochs[h.id] ==> Resolve(h) == Nobody))
    {
      hide FreeExactly;
      var g := given[k];
      assert Kept(g, slots[..], epochs);
      if epochs[g.handle.id] < g.epoch + PERIOD {
        StaleHandle(g.handle, g.epoch);
        assert slots[..][g.handle.id] == slots[g.handle.id];
      }
    }

    /** A generation older than the slot's resolves to nothing. */
    lemma StaleHandle(h: Handle, epoch: nat)
      requires
        && Allocated() && h.id < capacity && h.generation == GenerationOf(epoch)
        && epoch <= epochs[h.id] < epoch + PERIOD
      ensures epoch < epochs[h.id] ==> Resolve(h) == Nobody
    {
      if epoch < epochs[h.id] { Periods(epoch, epochs[h.id]); }
    }

    /** `socket_owner_ready_post`: coalesce into the mask; one event is
        queued unless one is, or the overflow noted when pool or ring refuse it. */
    method Post(id: nat, events: set<int>, granted: bool)
      requires Valid() && id < capacity && slots[id].Live?
      modifies this`ring, this`issue, this`overflow, slots
      ensures Valid() && slots[id].Live? && slots[id].mask == old(slots[id]).mask + events
      ensures forall i :: 0 <= i < capacity && i != id ==> slots[i] == old(slots[i])
      ensures slots[id] == old(slots[id]).(mask := slots[id].mask, queued := slots[id].queued)
      ensures
        var needed := events != {} && !old(slots[id]).queued;
        && overflow == (old(overflow) || (needed && !granted))
        && slots[id].queued == (old(slots[id]).queued || (needed && granted))
        && ring == old(ring) + if needed && granted then [Handle(id, slots[id].generation, slots[id].protocol)] else []
    {
      hide Posted, Honoured;
      if events == {} {
        assert slots[id].mask + events == slots[id].mask;
        return;
      }
      ghost var was := slots[..];
      var s := slots[id];
      var t := s.(mask := s.mask + events);
      if s.queued {
        PostedMask(ring, issue, was, epochs, overflow, overflow, id, t);
        slots[id] := t;
      } else if !granted {
        PostedMask(ring, issue, was, epochs, overflow, true, id, t);
        overflow := true;
        slots[id] := t;
      } else {
        PostedQueue(ring, issue, was, epochs, overflow, id, t.(queued := true), Handle(id, s.generation, s.protocol));
        ring, issue := ring + [Handle(id, s.generation, s.protocol)], issue + [epochs[id]];
        slots[id] := t.(queued := true);
      }
      assert slots[..] == was[id := slots[id]];
      HonouredMask(given, was, epochs, id, slots[id]);
      StillAllocated(was, id);
    }

    /** Masks and queue marks do not matter to the allocator. */
    lemma StillAllocated(was: seq<Slot>, id: nat)
      requires
        && generations != freeIds && slots.Length == generations.Length == freeIds.Length == capacity == |epochs|
        && freeCount <= capacity
      requires
        && |was| == capacity && FreeExactly(freeIds[..freeCount], was) && id < capacity && was[id].Live?
        && slots[id].Live? && slots[..] == was[id := slots[id]]
      requires forall i :: 0 <= i < capacity ==>
                 generations[i] == GenerationOf(epochs[i]) || (generations[i] == 0 && epochs[i] == 0 && was[i].Vacant?)
      requires forall i :: 0 <= i < capacity && was[i].Live? ==> was[i].generation == generations[i]
      requires slots[id].generation == was[id].generation
      ensures Allocated()
    {
      hide GenerationOf;
      var now := slots[..];
      assert forall i :: 0 <= i < capacity ==> now[i] == slots[i];
    }

    /** Readiness is never lost: a socket with events has exactly one event of its own
        generation in the ring, or the overflow flag is set. */
    lemma NeverLost(i: nat) returns (k: nat)
      requires Valid() && i < capacity && slots[i].Live? && slots[i].mask != {} && !overflow
      ensures
        && k < |ring| == |issue| && ring[k] == Handle(i, slots[i].generation, slots[i].protocol)
        && issue[k] == epochs[i]
      ensures forall j :: 0 <= j < |ring| && j != k ==> ring[j].id != i || issue[j] != epochs[i]
    {
      assert PostedAt(slots[..][i], i, epochs[i], ring, issue, overflow);
      k :| 0 <= k < |ring| && ring[k].id == i && issue[k] == epochs[i];
      assert slots[..][i] == slots[i];
    }

    /** No slot was retired 2^32 - 1 times while an event for it was queued. */
    ghost predicate Young()
      reads this`ring, this`issue, this`epochs
    {
      && |ring| == |issue|
      && forall k :: 0 <= k < |ring| && ring[k].id < |epochs| ==> epochs[ring[k].id] < issue[k] + PERIOD
    }

    /** So it is before any slot was retired that often. */
    lemma AllYoung()
      requires Valid() && forall i :: 0 <= i < |epochs| ==> epochs[i] < PERIOD
      ensures Young()
    {
    }

    /** The first loop of `socket_owner_ready_burst`: queued events, stale ones dropped. */
    method TakeEvents(max: nat) returns (out: seq<Report>, ghost done: set<nat>, ghost k: nat)
      requires Valid() && Young()
      modifies this`ring, this`issue, slots
      ensures Valid() && Taken(old(slots[..]), slots[..], done, out) && |out| <= max && (ring == [] || |out| == max)
      ensures k <= |old(ring)| && ring == old(ring)[k..] && Handles(out) == Current(old(ring), old(issue), epochs, k)
      ensures forall i :: i in done ==> i < capacity && old(slots[..])[i].Live? && old(slots[..])[i].queued
    {
      hide Posted, Taken, FreeExactly, GenerationOf, Honoured;
      out, done, k := [], {}, 0;
      ghost var was := slots[..];
      TakenNone(was);
      while |out| < max && ring != []
        invariant Valid() && Young() && Taken(was, slots[..], done, out) && |out| <= max
        invariant
          && k <= |old(ring)| == |old(issue)| && ring == old(ring)[k..] && issue == old(issue)[k..]
          && Handles(out) == Current(old(ring), old(issue), epochs, k)
        invariant forall i :: i in done ==> i < capacity && was[i].Live? && was[i].queued
        decreases |ring|
      {
        out, done := TakeOne(out, was, done);
        k := k + 1;
      }
    }

    /** One queued event: it is reported with all that happened, or dropped if its socket is gone. */
    method TakeOne(first: seq<Report>, ghost was: seq<Slot>, ghost before: set<nat>)
      returns (out: seq<Report>, ghost done: set<nat>)
      requires Valid() && Young() && ring != [] && Taken(was, slots[..], before, first)
      requires forall i :: i in before ==> i < capacity && was[i].Live? && was[i].queued
      modifies this`ring, this`issue, slots
      ensures Valid() && Young() && Taken(was, slots[..], done, out) && |out| <= |first| + 1
      ensures forall i :: i in done ==> i < capacity && was[i].Live? && was[i].queued
      ensures ring == old(ring)[1..] && issue == old(issue)[1..]
      ensures
        var h, e := old(ring)[0], old(issue)[0];
        Handles(out) == Handles(first) + if h.id < |epochs| && e == epochs[h.id] then [h] else []
    {
      hide Posted, Taken, FreeExactly, GenerationOf, Honoured;
      out, done := first, before;
      var h := ring[0];
      ghost var e, now := issue[0], slots[..];
      EventFacts(h, e);
      var found := Lookup(h);
      if found == Nobody {
        StaleEvent(h, e);
        PostedStale(ring, issue, now, epochs, overflow);
      } else {
        CurrentEvent(h, e);
        PostedTake(ring, issue, now, epochs, overflow);
        var s := slots[h.id];
        TakenMore(was, now, done, out, h.id);
        slots[h.id] := s.(mask := {}, queued := false);
        assert slots[..] == now[h.id := slots[h.id]];
        if s.mask == {} {
          assert false;
        }
        HandlesMore(out, Report(h, s.mask));
        out := out + [Report(h, s.mask)];
        done := done + {h.id};
        HonouredMask(given, now, epochs, h.id, slots[h.id]);
        StillAllocated(now, h.id);
      }
      ring, issue := ring[1..], issue[1..];
    }

    lemma EventFacts(h: Handle, e: nat)
      requires Valid() && Young() && ring != [] && h == ring[0] && e == issue[0]
      ensures h.id < capacity && h.generation == GenerationOf(e) && e <= epochs[h.id] < e + PERIOD
    {
    }

    lemma StaleEvent(h: Handle, e: nat)
      requires Valid() && ring != [] && h == ring[0] && e == issue[0] && h.id < capacity && Resolve(h) == Nobody
      ensures e != epochs[h.id]
    {
      if e == epochs[h.id] { PostedTake(ring, issue, slots[..], epochs, overflow); }
    }

    lemma CurrentEvent(h: Handle, e: nat)
      requires
        && Valid() && h.id < capacity && h.generation == GenerationOf(e) && e <= epochs[h.id] < e + PERIOD
        && Resolve(h) != Nobody
      ensures e == epochs[h.id]
    {
      StaleHandle(h, e);
    }

    /** One slot of the recovery scan. */
    method Recover(id: nat, first: seq<Report>, ghost was: seq<Slot>, ghost before: set<nat>)
      returns (out: seq<Report>, ghost done: set<nat>)
      requires Valid() && overflow && ring == [] && id < capacity && Taken(was, slots[..], before, first)
      modifies slots
      ensures Valid() && Taken(was, slots[..], done, out) && before <= done <= before + {id} && |out| <= |first| + 1
      ensures
        && (slots[id].Live? ==> slots[id].mask == {})
        && forall i :: 0 <= i < capacity && i != id ==> slots[i] == old(slots[i])
      ensures out == first + Pending(old(slots[..]), id)
    {
      hide Posted, Taken, FreeExactly, GenerationOf, Honoured;
      out, done := first, before;
      ghost var now := slots[..];
      NoneQueued();
      var s := slots[id];
      if s.Live? && s.mask != {} && !s.queued {
        PostedMask(ring, issue, now, epochs, overflow, overflow, id, s.(mask := {}));
        TakenMore(was, now, done, out, id);
        slots[id] := s.(mask := {});
        assert slots[..] == now[id := slots[id]];
        out := out + [Report(Handle(id, s.generation, s.protocol), s.mask)];
        done := done + {id};
        assert now[id] == s;
        HonouredMask(given, now, epochs, id, slots[id]);
        StillAllocated(now, id);
      }
    }

    /** With an empty ring no slot counts as queued. */
    lemma NoneQueued()
      requires Valid() && ring == []
      ensures forall i :: 0 <= i < capacity && slots[i].Live? ==> !slots[i].queued && (slots[i].mask != {} ==> overflow)
    {
      forall i | 0 <= i < capacity && slots[i].Live?
        ensures !slots[i].queued && (slots[i].mask != {} ==> overflow)
      {
        assert PostedAt(slots[..][i], i, epochs[i], ring, issue, overflow);
      }
    }

    /** The recovery scan: visit slots round robin while there is room. */
    method ScanSlots(first: seq<Report>, max: nat, ghost was: seq<Slot>, ghost before: set<nat>)
      returns (out: seq<Report>, ghost done: set<nat>, ghost n: nat)
      requires
        && Valid() && overflow && capacity > 0 && Taken(was, slots[..], before, first) && |first| < max && ring == []
      modifies this`overflow, this`scan, slots
      ensures Valid() && Taken(was, slots[..], done, out) && |out| <= max && (overflow ==> |out| == max)
      ensures !overflow ==> forall i :: 0 <= i < capacity && slots[i].Live? ==> slots[i].mask == {}
      ensures max >= capacity ==>
                (overflow <==>
                  AllPending(was) && max == capacity && Wrapped(old(scan), capacity - 1, capacity) in before)
      ensures 0 < n <= capacity && scan == Wrapped(old(scan), n, capacity) && (overflow <==> n < capacity)
      ensures out == first + Swept(old(slots[..]), old(scan), n)
    {
      hide Posted, Taken, FreeExactly, GenerationOf, Wrapped, Offset, Visited, Allocated, AllPending, Honoured;
      hide Pending;
      out, done, n := first, before, 0;
      var scanned := 0;
      ghost var start, last := scan, Wrapped(scan, capacity - 1, capacity);
      WrapNext(start, capacity - 1, capacity);
      WrapZero(start, capacity);
      SameSize(was, slots[..], done, out);
      Lengths();
      VisitedNone(slots[..], start);
      while scanned < capacity && |out| < max
        invariant Valid() && overflow && Taken(was, slots[..], done, out) && before <= done && |out| <= max
        invariant
          && 0 <= scanned <= capacity
          && scan == (if scanned == capacity then start else Wrapped(start, scanned, capacity))
        invariant Visited(slots[..], start, scanned) && n == scanned
        invariant |slots[..]| == capacity && out == first + Swept(old(slots[..]), start, scanned)
        invariant forall i :: 0 <= i < capacity && Offset(i, start, capacity) >= scanned ==> slots[i] == old(slots[i])
        invariant scanned < capacity ==> last !in done || last in before
        invariant AllPending(was) && max == capacity && last in before ==> scanned < capacity
      {
        if AllPending(was) && scanned == capacity - 1 && last in before {
          Complete(was, slots[..], done, out, start, last);
        }
        var id := scan;
        ghost var now := slots[..];
        WrapNext(start, scanned, capacity);
        SweptMore(old(slots[..]), now, start, scanned, id);
        out, done := Recover(id, out, was, done);
        VisitedNext(now, slots[..], start, scanned, id);
        scan := (scan + 1) % capacity;
        scanned, n := scanned + 1, n + 1;
      }
      if |out| >= capacity { Everybody(was, slots[..], done, out); }
      if scanned == capacity {
        VisitedAll(slots[..], start);
        PostedCalm(ring, issue, slots[..], epochs);
        overflow := false;
      }
    }

    lemma Lengths()
      requires Allocated()
      ensures slots.Length == capacity
    {
    }

    /** `socket_owner_ready_burst`: every report is for a socket that is live at entry and
        carries all of its events; the rest stays queued or recoverable.  Queued events come in
        their order, then `n` slots in turn from where the last scan stopped. */
    method Burst(max: nat) returns (out: seq<Report>, ghost done: set<nat>, ghost k: nat, ghost n: nat)
      requires Valid() && Young()
      modifies this`ring, this`issue, this`overflow, this`scan, slots
      ensures Valid() && Taken(old(slots[..]), slots[..], done, out) && |out| <= max
      ensures capacity == 0 || |out| == max || (ring == [] && !overflow)
      ensures max >= capacity > 0 ==> forall i :: 0 <= i < capacity && slots[i].Live? ==> slots[i].mask == {}
      ensures max >= capacity > 0 ==>
                (overflow <==> old(overflow) && max == capacity && Crowded(old(slots[..]), old(scan)))
      ensures k <= |old(ring)| && ring == old(ring)[k..] && n <= capacity
      ensures Handles(out) == Current(old(ring), old(issue), epochs, k) + Handles(Swept(old(slots[..]), old(scan), n))
      ensures scan == if n == 0 then old(scan) else Wrapped(old(scan), n, capacity)
      ensures n > 0 <==> old(overflow) && capacity > 0 && |Current(old(ring), old(issue), epochs, k)| < max
    {
      hide Posted, Taken, FreeExactly, GenerationOf, Honoured;
      out, done, k, n := [], {}, 0, 0;
      ghost var was := slots[..];
      if max == 0 || capacity == 0 {
        TakenNone(was);
        return;
      }
      out, done, k := TakeEvents(max);
      if |out| >= capacity { Everybody(was, slots[..], done, out); }
      if |out| < max {
        ghost var first := out;
        out, done, n := Sweep(out, max, was, done);
        HandlesPlus(first, Swept(was, old(scan), n));
      }
    }

    /** The second half: once the ring is empty, what found no room in it. */
    method Sweep(first: seq<Report>, max: nat, ghost was: seq<Slot>, ghost before: set<nat>)
      returns (out: seq<Report>, ghost done: set<nat>, ghost n: nat)
      requires Valid() && capacity > 0 && Taken(was, slots[..], before, first) && |first| < max && ring == []
      requires forall i :: i in before ==> i < capacity && was[i].Live? && was[i].queued
      modifies this`overflow, this`scan, slots
      ensures Valid() && Taken(was, slots[..], done, out) && |out| <= max && (overflow ==> |out| == max)
      ensures max >= capacity ==> forall i :: 0 <= i < capacity && slots[i].Live? ==> slots[i].mask == {}
      ensures max >= capacity ==>
                (overflow <==> old(overflow) && max == capacity && Crowded(was, old(scan)))
      ensures (n > 0 <==> old(overflow)) && n <= capacity && out == first + Swept(was, old(scan), n)
      ensures scan == if n == 0 then old(scan) else Wrapped(old(scan), n, capacity)
    {
      hide Posted, Taken, FreeExactly, GenerationOf, Honoured;
      out, done, n := first, before, 0;
      SameSize(was, slots[..], done, out);
      Lengths();
      if |out| >= capacity { Everybody(was, slots[..], done, out); }
      NoneQueued();
      if overflow {
        ghost var mid := slots[..];
        TookQueued(was, done, out);
        PendingSame(was, mid, done, first);
        out, done, n := ScanSlots(out, max, was, done);
        SweptSame(was, mid, old(scan), n);
        if |out| >= capacity { Everybody(was, slots[..], done, out); }
      }
    }

    /** An empty ring means that exactly the queued slots were reported. */
    lemma TookQueued(was: seq<Slot>, done: set<nat>, out: seq<Report>)
      requires Valid() && ring == [] && Taken(was, slots[..], done, out)
      ensures forall i :: 0 <= i < capacity && was[i].Live? && was[i].queued ==> i in done
    {
      NoneQueued();
    }
  }

  /** Whom reports are about. */
  ghost function Handles(out: seq<Report>): seq<Handle> {
    seq(|out|, i requires 0 <= i < |out| => out[i].handle)
  }

  lemma HandlesMore(out: seq<Report>, r: Report)
    ensures Handles(out + [r]) == Handles(out) + [r.handle]
  {
  }

  lemma HandlesPlus(a: seq<Report>, b: seq<Report>)
    ensures Handles(a + b) == Handles(a) + Handles(b)
  {
  }

  /** The first `k` queued events, without those of sockets that are gone. */
  ghost function Current(ring: seq<Handle>, issue: seq<nat>, epochs: seq<nat>, k: nat): seq<Handle>
    requires k <= |ring| == |issue|
  {
    if k == 0 then []
    else
      var h := ring[k - 1];
      Current(ring, issue, epochs, k - 1) + if h.id < |epochs| && issue[k - 1] == epochs[h.id] then [h] else []
  }

  /** The report a scan makes of slot `i`: one for a socket whose events found no room in the ring. */
  ghost function Pending(slots: seq<Slot>, i: nat): seq<Report> {
    if i < |slots| && slots[i].Live? && slots[i].mask != {} && !slots[i].queued then
      [Report(Handle(i, slots[i].generation, slots[i].protocol), slots[i].mask)]
    else []
  }

  /** What a scan of `n` slots from `start` on reports. */
  ghost function Swept(slots: seq<Slot>, start: nat, n: nat): seq<Report> {
    if n == 0 then [] else Swept(slots, start, n - 1) + Pending(slots, Wrapped(start, n - 1, |slots|))
  }

  lemma SweptMore(was: seq<Slot>, now: seq<Slot>, start: nat, n: nat, id: nat)
    requires |now| == |was| && start < |was| && n < |was| && id == Wrapped(start, n, |was|)
    requires forall i :: 0 <= i < |was| && Offset(i, start, |was|) >= n ==> now[i] == was[i]
    ensures Swept(was, start, n + 1) == Swept(was, start, n) + Pending(now, id)
    ensures forall i :: 0 <= i < |was| && Offset(i, start, |was|) >= n + 1 ==> i != id
  {
    WrapNext(start, n, |was|);
  }

  /** Events taken from the ring were not for the scan. */
  lemma PendingSame(was: seq<Slot>, now: seq<Slot>, done: set<nat>, out: seq<Report>)
    requires Taken(was, now, done, out) && forall i :: i in done ==> i < |was| && was[i].Live? && was[i].queued
    ensures |now| == |was| && forall i :: 0 <= i < |was| ==> Pending(was, i) == Pending(now, i)
  {
  }

  lemma {:induction false} SweptSame(was: seq<Slot>, now: seq<Slot>, start: nat, n: nat)
    requires |now| == |was|
    requires forall i :: 0 <= i < |was| ==> Pending(was, i) == Pending(now, i)
    ensures Swept(was, start, n) == Swept(now, start, n)
  {
    if n > 0 { SweptSame(was, now, start, n - 1); }
  }

  function Offset(i: nat, start: nat, capacity: nat): int { if i >= start then i - start else i - start + capacity }

  function Wrapped(start: nat, n: nat, capacity: nat): nat {
    if start + n < capacity then start + n else Clamp(start + n - capacity)
  }

  function Clamp(x: int): nat { if x < 0 then 0 else x }

  lemma WrapNext(start: nat, n: nat, capacity: nat)
    requires start < capacity && n < capacity
    ensures
      var at := Wrapped(start, n, capacity);
      && at < capacity && (at + 1) % capacity == Wrapped(start, n + 1, capacity)
      && Offset(at, start, capacity) == n
      && forall i: nat :: i < capacity && Offset(i, start, capacity) == n ==> i == at
  {
    var at := Wrapped(start, n, capacity);
    if at + 1 == capacity { assert (at + 1) % capacity == 0; }
  }

  lemma WrapZero(start: nat, capacity: nat)
    requires start < capacity
    ensures Wrapped(start, 0, capacity) == start && Wrapped(start, capacity, capacity) == start
  {
  }

  lemma OffsetBound(start: nat, capacity: nat)
    requires start < capacity
    ensures forall i: nat :: i < capacity ==> 0 <= Offset(i, start, capacity) < capacity
  {
  }

  /** The slots a scan from `start` has passed hold no events. */
  ghost predicate Visited(now: seq<Slot>, start: nat, scanned: nat) {
    forall i :: 0 <= i < |now| && Offset(i, start, |now|) < scanned && now[i].Live? ==> now[i].mask == {}
  }

  lemma VisitedNone(now: seq<Slot>, start: nat)
    requires start < |now|
    ensures Visited(now, start, 0)
  {
    OffsetBound(start, |now|);
  }

  lemma VisitedNext(now: seq<Slot>, after: seq<Slot>, start: nat, scanned: nat, id: nat)
    requires
      && Visited(now, start, scanned) && |after| == |now| && start < |now| && scanned < |now|
      && id == Wrapped(start, scanned, |now|) < |now|
    requires (after[id].Live? ==> after[id].mask == {}) && forall i :: 0 <= i < |now| && i != id ==> after[i] == now[i]
    ensures Visited(after, start, scanned + 1)
  {
    WrapNext(start, scanned, |now|);
  }

  lemma VisitedAll(now: seq<Slot>, start: nat)
    requires Visited(now, start, |now|) && start < |now|
    ensures forall i :: 0 <= i < |now| && now[i].Live? ==> now[i].mask == {}
  {
    OffsetBound(start, |now|);
  }

  /** What a burst has done so far: the slots in `done` were reported, the others are
      as they were. */
  ghost predicate Taken(was: seq<Slot>, now: seq<Slot>, done: set<nat>, out: seq<Report>) {
    && |now| == |was| && |done| == |out|
    && (forall i :: i in done ==>
         i < |was| && was[i].Live? && was[i].mask != {} && now[i] == was[i].(mask := {}, queued := false))
    && (forall i :: 0 <= i < |was| && i !in done ==> now[i] == was[i])
    && (forall k :: 0 <= k < |out| ==>
         out[k].handle.id in done && out[k].handle.id < |was| && Describes(out[k], was[out[k].handle.id]))
    && (forall j, k :: 0 <= j < k < |out| ==> out[j].handle.id != out[k].handle.id)
  }

  /** A report carries the socket's handle and all of its events. */
  ghost predicate Describes(r: Report, s: Slot) {
    s.Live? && r.handle.generation == s.generation && r.handle.protocol == s.protocol && r.mask == s.mask
  }

  lemma TakenNone(was: seq<Slot>)
    ensures Taken(was, was, {}, [])
  {
  }

  ghost predicate AllPending(was: seq<Slot>) {
    forall i :: 0 <= i < |was| ==> was[i].Live? && was[i].mask != {}
  }

  /** Every slot has events and the one the scan would visit last is queued. */
  ghost predicate Crowded(was: seq<Slot>, scan: nat) {
    AllPending(was) && |was| > 0 && scan < |was| && was[Wrapped(scan, |was| - 1, |was|)].queued
  }

  /** A burst as large as the table can leave the flag set: in a table of one slot the first
      event finds no room, the second is queued, and the burst reports both. */
  method FlagCanStay() returns (t: SlotTable, out: seq<Report>)
    ensures t.Valid() && t.capacity == 1 && |out| == 1 && out[0].mask == {1, 2} && t.overflow
  {
    hide Posted, Honoured, FreeExactly;
    t := new SlotTable(1);
    assert t.slots[0].Vacant?;
    var ok, h := t.Adopt(7, 6);
    assert t.slots[..][0] == t.slots[0];
    t.Post(0, {1}, false);
    t.Post(0, {2}, true);
    ghost var was := t.slots[..];
    assert was[0] == t.slots[0] && t.slots[0].mask == {1, 2} && was[0].queued;
    assert Crowded(was, t.scan) by { assert Wrapped(0, 0, 1) == 0; }
    t.AllYoung();
    ghost var done;
    ghost var k, n;
    out, done, k, n := t.Burst(1);
    Everybody(was, t.slots[..], done, out);
  }

  lemma SameSize(was: seq<Slot>, now: seq<Slot>, done: set<nat>, out: seq<Report>)
    requires Taken(was, now, done, out)
    ensures |was| == |now| && |done| == |out|
  {
  }

  lemma Complete(was: seq<Slot>, now: seq<Slot>, done: set<nat>, out: seq<Report>, start: nat, last: nat)
    requires
      && Taken(was, now, done, out) && start < |was| && last in done && AllPending(was)
      && Visited(now, start, |was| - 1)
    requires last == Wrapped(start, |was| - 1, |was|)
    ensures |out| == |was|
  {
    BelowFacts(|was|);
    OffsetBound(start, |was|);
    WrapNext(start, |was| - 1, |was|);
    assert done == Below(|was|);
  }

  lemma Everybody(was: seq<Slot>, now: seq<Slot>, done: set<nat>, out: seq<Report>)
    requires Taken(was, now, done, out) && |out| >= |was|
    ensures
      && |out| == |was| && AllPending(was)
      && forall i :: 0 <= i < |was| ==> i in done && now[i].Live? && now[i].mask == {}
  {
    BelowFacts(|was|);
    SubsetCount(done, Below(|was|));
  }

  lemma TakenMore(was: seq<Slot>, now: seq<Slot>, done: set<nat>, out: seq<Report>, id: nat)
    requires Taken(was, now, done, out) && id < |now| && now[id].Live? && now[id].mask != {}
    ensures id !in done && was[id] == now[id]
    ensures Taken(was, now[id := now[id].(mask := {}, queued := false)], done + {id},
                  out + [Report(Handle(id, now[id].generation, now[id].protocol), now[id].mask)])
  {
  }

  lemma Periods(a: nat, b: nat)
    requires a < b < a + PERIOD
    ensures GenerationOf(a) != GenerationOf(b)
  {
  }

  lemma NextGeneration(e: nat)
    ensures
      var next := (GenerationOf(e) + 1) % 0x1_0000_0000;
      GenerationOf(e + 1) == if next == 0 then 1 else next
  {
  }
}
