/**
 * The receive dispatch tables (rx_dispatch.c): which worker owns a bound endpoint, and
 * which owns an established TCP flow. Both are open-addressed arrays of 64-bit words.
 * Operations are serialized by the registry lock; the hash is any function into the table.
 */
module Dispatch {
  import opened Probing

  const U8 := 0x100
  const U16 := 0x1_0000
  const U24 := 0x100_0000
  const U32 := 0x1_0000_0000
  const U48 := 0x1_0000_0000_0000
  const TOMBSTONE := 0xffff_ffff_ffff_ffff
  const TCP := 6
  const UDP := 17

  datatype Endpoint = Endpoint(protocol: nat, ip: nat, port: nat)
  {
    predicate Fits() { protocol < U8 && ip < U32 && port < U16 }

    /** The endpoints a socket may register. */
    predicate Lawful() { Fits() && (protocol == TCP || protocol == UDP) && port != 0 }

    /** The word with the owner byte clear. */
    function Identity(): nat { ip * U32 + port * U16 + protocol * U8 }
  }

  datatype Flow = Flow(remoteIp: nat, localIp: nat, remotePort: nat, localPort: nat)
  {
    predicate Fits() { remoteIp < U32 && localIp < U32 && remotePort < U16 && localPort < U16 }

    predicate Lawful() { Fits() && remotePort != 0 && localPort != 0 }

    function Addresses(): nat { remoteIp * U32 + localIp }

    /** The ports word with the owner half clear. */
    function Identity(): nat { remotePort * U48 + localPort * U32 + TCP * U16 }
  }

  datatype Answer = Done | Invalid | InUse | NoSpace

  /** The position of an lcore among the workers, if it is one. */
  datatype Worker = Nobody | Index(index: nat)

  ghost predicate Distinct(s: seq<nat>) {
    forall i, j :: 0 <= i < j < |s| ==> s[i] != s[j]
  }

  /** rx_dispatch_worker_index. */
  method WorkerIndex(workers: seq<nat>, lcore: nat) returns (r: Worker)
    ensures r.Nobody? <==> lcore !in workers
    ensures r.Index? ==> r.index < |workers| && workers[r.index] == lcore && lcore !in workers[..r.index]
  {
    for i := 0 to |workers|
      invariant lcore !in workers[..i]
    {
      if workers[i] == lcore {
        return Index(i);
      }
    }
    return Nobody;
  }

  /** The owner's worker index, when the key is registered. */
  ghost predicate Names<K(!new)>(workers: seq<nat>, m: map<K, nat>, k: K, r: Worker) {
    && (r.Nobody? <==> k !in m)
    && (r.Index? ==> r.index < |workers| && k in m && workers[r.index] == m[k])
  }

  /** How a registration answers: refusals change nothing, success adds exactly one key. */
  ghost predicate Registered<K(!new)>(lawful: bool, full: bool, before: map<K, nat>, k: K, owner: nat,
                                      after: map<K, nat>, answer: Answer)
  {
    if !lawful then answer == Invalid && after == before
    else if k in before then answer == (if before[k] == owner then Done else InUse) && after == before
    else if full then answer == NoSpace && after == before
    else answer == Done && after == before[k := owner]
  }

  ghost predicate AllFull<K(!new)>(s: seq<Slot<K>>) {
    forall i | 0 <= i < |s| :: s[i].Full?
  }

  /** Every owner is a worker whose number fits the word. */
  ghost predicate Owned<K(!new)>(m: map<K, nat>, workers: seq<nat>, limit: nat) {
    forall k | k in m :: m[k] in workers && m[k] < limit
  }

  /** Where the word of an absent key goes: the first tombstone passed, else the probe's slot. */
  ghost predicate Spare<K(!new)>(s: seq<Slot<K>>, start: nat, p: nat, tomb: nat)
    requires start < |s| && p <= |s|
  {
    && tomb <= |s|
    && (tomb < |s| ==> Reach(start, tomb, |s|) < p && s[tomb].Tomb? && Foremost(s, start, tomb))
    && (tomb == |s| ==> forall q | 0 <= q < p :: !s[At(start, q, |s|)].Tomb?)
  }

  /** The new key sits in the first slot on its way that held none; every other slot is as it was. */
  ghost predicate Landed<K(!new)>(s: seq<Slot<K>>, t: seq<Slot<K>>, start: nat, k: K, owner: nat)
    requires start < |s|
  {
    exists i :: 0 <= i < |s| && Foremost(s, start, i) && t == s[i := Full(k, owner)]
  }

  /** The slot a registration takes at an empty slot, and how it remembers a tombstone. */
  lemma Choice<K(!new)>(s: seq<Slot<K>>, k: K, start: nat, p: nat, tomb: nat)
    requires start < |s| && p < |s| && Missed(s, k, start, p) && Spare(s, start, p, tomb)
    ensures tomb == |s| && !s[At(start, p, |s|)].Full? ==> Foremost(s, start, At(start, p, |s|))
    ensures s[At(start, p, |s|)].Tomb? ==> Spare(s, start, p + 1, if tomb == |s| then At(start, p, |s|) else tomb)
    ensures s[At(start, p, |s|)].Full? ==> Spare(s, start, p + 1, tomb)
  {
  }

  lemma Lands<K(!new)>(s: seq<Slot<K>>, start: nat, i: nat, k: K, owner: nat)
    requires start < |s| && i < |s| && Foremost(s, start, i)
    ensures Landed(s, s[i := Full(k, owner)], start, k, owner)
  {
  }

  /** A full round that met no empty slot and no tombstone saw a full table. */
  lemma Crammed<K(!new)>(s: seq<Slot<K>>, k: K, start: nat)
    requires start < |s| && Missed(s, k, start, |s|) && Spare(s, start, |s|, |s|)
    ensures AllFull(s)
  {
    forall i | 0 <= i < |s| ensures s[i].Full? {
      assert At(start, Reach(start, i, |s|), |s|) == i;
    }
  }

  // ----- Words -----------------------------------------------------------------------

  /** One endpoint word as a slot. */
  function ReadEndpoint(w: nat): Slot<Endpoint> {
    if w == 0 then Empty else if w == TOMBSTONE then Tomb
    else Full(Endpoint(w / U8 % U8, w / U32, w / U16 % U16), w % U8)
  }

  /** An endpoint word is the sum of its fields. */
  lemma EndpointFields(w: nat)
    ensures w == w / U32 * U32 + w / U16 % U16 * U16 + w / U8 % U8 * U8 + w % U8
  {
    assert w == w / U16 * U16 + w % U16;
    assert w / U16 == w / U32 * U16 + w / U16 % U16;
    assert w % U16 == w / U8 % U8 * U8 + w % U8;
  }

  lemma SameEndpoint(ip: nat, port: nat, protocol: nat, e: Endpoint)
    requires e.Fits() && port < U16 && protocol < U8
    ensures ip * U32 + port * U16 + protocol * U8 == e.Identity() <==> Endpoint(protocol, ip, port) == e
  {
    if ip < e.ip {
      assert ip * U32 + U32 <= e.ip * U32;
    } else if ip > e.ip {
      assert e.ip * U32 + U32 <= ip * U32;
    }
  }

  /** Distinct endpoints never share a word, and no endpoint's word reads as empty or buried. */
  lemma EndpointWord(e: Endpoint, owner: nat)
    requires e.Lawful() && owner < U8
    ensures ReadEndpoint(e.Identity() + owner) == Full(e, owner)
  {
    Digit(e.ip, e.port * U16 + e.protocol * U8 + owner, U32);
    Digit(e.ip * U16 + e.port, e.protocol * U8 + owner, U16);
    Digit(e.ip, e.port, U16);
    EndpointLow(e, owner);
    Digit(e.ip * U16 + e.port, e.protocol, U8);
    BoundedWord(e);
  }

  lemma Digit(high: nat, low: nat, base: nat)
    requires low < base && base in {U8, U16, U32, U48}
    ensures (high * base + low) / base == high && (high * base + low) % base == low
  {
    if base == U8 {
    } else if base == U16 {
    } else if base == U32 {
    }
  }

  /** No registered word is zero or all ones. */
  lemma BoundedWord(e: Endpoint)
    requires e.Lawful()
    ensures 0 < e.Identity() < TOMBSTONE - U8
  {
  }

  /** The masked comparison the probes make is equality of endpoints. */
  lemma EndpointMatch(w: nat, e: Endpoint)
    requires e.Fits() && w != 0 && w != TOMBSTONE
    ensures w - w % U8 == e.Identity() <==> ReadEndpoint(w).key == e
  {
    EndpointFields(w);
    SameEndpoint(w / U32, w / U16 % U16, w / U8 % U8, e);
  }

  /** Comparing whole words compares endpoint and owner; only a lawful endpoint's word is never a tombstone. */
  lemma EndpointValue(w: nat, e: Endpoint, owner: nat)
    requires e.Fits() && owner < U8 && w != 0
    ensures w != TOMBSTONE ==> (w == e.Identity() + owner <==> ReadEndpoint(w) == Full(e, owner))
    ensures w == TOMBSTONE && w == e.Identity() + owner ==> !e.Lawful()
  {
    if w != TOMBSTONE {
      EndpointMatch(w, e);
      EndpointLow(e, owner);
    } else if e.Lawful() {
      EndpointWord(e, owner);
    }
  }

  lemma EndpointLow(e: Endpoint, owner: nat)
    requires owner < U8
    ensures (e.Identity() + owner) % U8 == owner
  {
    Digit(e.ip * U24 + e.port * U8 + e.protocol, owner, U8);
  }

  function ReadFlow(addresses: nat, w: nat): Slot<Flow> {
    if w == 0 then Empty else if w == TOMBSTONE then Tomb
    else Full(Flow(addresses / U32, addresses % U32, w / U48, w / U32 % U16), w % U16)
  }

  /** A stored flow word always carries the TCP protocol number. */
  predicate Stamped(w: nat) {
    w == 0 || w == TOMBSTONE || w / U16 % U16 == TCP
  }

  /** A ports word is the sum of its fields. */
  lemma FlowFields(w: nat)
    ensures w == w / U48 * U48 + w / U32 % U16 * U32 + w / U16 % U16 * U16 + w % U16
  {
    assert w == w / U16 * U16 + w % U16;
    assert w / U16 == w / U32 * U16 + w / U16 % U16;
    assert w / U32 == w / U48 * U16 + w / U32 % U16;
  }

  lemma SamePorts(remote: nat, local: nat, f: Flow)
    requires f.Fits() && local < U16
    ensures remote * U48 + local * U32 + TCP * U16 == f.Identity() <==> remote == f.remotePort && local == f.localPort
  {
  }

  /** Distinct flows never share a pair of words. */
  lemma FlowWord(f: Flow, owner: nat)
    requires f.Lawful() && owner < U16
    ensures ReadFlow(f.Addresses(), f.Identity() + owner) == Full(f, owner) && Stamped(f.Identity() + owner)
  {
    Digit(f.remoteIp, f.localIp, U32);
    Digit(f.remotePort, f.localPort * U32 + TCP * U16 + owner, U48);
    Digit(f.remotePort * U16 + f.localPort, TCP * U16 + owner, U32);
    Digit(f.remotePort, f.localPort, U16);
    FlowLow(f, owner);
    Digit(f.remotePort * U16 + f.localPort, TCP, U16);
    Digit((f.remotePort * U16 + f.localPort) * U16 + TCP, owner, U16);
  }

  /** The two comparisons the probes make are equality of flows. */
  lemma FlowMatch(addresses: nat, w: nat, f: Flow)
    requires f.Fits() && w != 0 && w != TOMBSTONE && Stamped(w)
    ensures w - w % U16 == f.Identity() && addresses == f.Addresses() <==> ReadFlow(addresses, w).key == f
  {
    FlowFields(w);
    SamePorts(w / U48, w / U32 % U16, f);
  }

  lemma FlowValue(addresses: nat, w: nat, f: Flow, owner: nat)
    requires f.Fits() && owner < U16 && w != 0 && Stamped(w)
    ensures w == f.Identity() + owner && addresses == f.Addresses() <==> ReadFlow(addresses, w) == Full(f, owner)
  {
    FlowLow(f, owner);
    if w != TOMBSTONE {
      FlowMatch(addresses, w, f);
    }
  }

  lemma FlowLow(f: Flow, owner: nat)
    requires f.Fits() && owner < U16
    ensures (f.Identity() + owner) % U16 == owner && f.Identity() + owner != TOMBSTONE
  {
    var high := f.remotePort * U32 + f.localPort * U16 + TCP;
    Digit(high, owner, U16);
    Digit(f.remotePort * U16 + f.localPort, TCP, U16);
    Digit(0xffff_ffff_ffff, 0xffff, U16);
    Digit(0xffff_ffff, 0xffff, U16);
  }

  // ----- Bound endpoints ---------------------------------------------------------------

  ghost function Endpoints(words: seq<nat>): (s: seq<Slot<Endpoint>>)
    ensures |s| == |words| && forall i | 0 <= i < |s| :: s[i] == ReadEndpoint(words[i])
  {
    seq(|words|, i requires 0 <= i < |words| => ReadEndpoint(words[i]))
  }

  /** Writing one word changes one slot. */
  lemma EndpointStore(words: seq<nat>, i: nat, w: nat)
    requires i < |words|
    ensures Endpoints(words[i := w]) == Endpoints(words)[i := ReadEndpoint(w)]
  {
  }

  class EndpointTable {
    const workers: seq<nat>
    const hash: Endpoint -> nat
    const entries: array<nat>
    /** The owner lcore of every registered endpoint. */
    ghost var owners: map<Endpoint, nat>

    ghost predicate Valid()
      reads this, entries
    {
      && entries.Length > 0 && Distinct(workers) && (forall e :: hash(e) < entries.Length)
      && Table(Endpoints(entries[..]), hash, owners)
      && Owned(owners, workers, U8) && (forall e | e in owners :: e.Lawful())
    }

    /** rx_dispatch_configure_workers on the endpoint table; no workers is the reset state. */
    constructor (workers: seq<nat>, hash: Endpoint -> nat, size: nat)
      requires size > 0 && Distinct(workers) && forall e :: hash(e) < size
      ensures Valid() && fresh(entries) && entries.Length == size && owners == map[]
      ensures this.workers == workers && this.hash == hash
    {
      this.workers, this.hash := workers, hash;
      owners := map[];
      entries := new nat[size](_ => 0);
      new;
      Cleared(Endpoints(entries[..]), hash);
    }

    /** The worker that owns an endpoint: exactly the registered one. */
    method Lookup(e: Endpoint) returns (r: Worker)
      requires Valid() && e.Fits()
      ensures Names(workers, owners, e, r)
    {
      hide Table;
      hide Owned;
      var n := entries.Length;
      ghost var s := Endpoints(entries[..]);
      var start := hash(e);
      for probe := 0 to n
        invariant Missed(s, e, start, probe)
      {
        var w := entries[At(start, probe, n)];
        if w == 0 {
          Absent(s, hash, owners, e, probe);
          return Nobody;
        }
        if w != TOMBSTONE {
          EndpointMatch(w, e);
          if w - w % U8 == e.Identity() {
            Found(At(start, probe, n));
            r := WorkerIndex(workers, w % U8);
            return;
          }
        }
      }
      Absent(s, hash, owners, e, n);
      return Nobody;
    }

    lemma Found(i: nat)
      requires Valid() && i < entries.Length && ReadEndpoint(entries[i]).Full?
      ensures
        var slot := ReadEndpoint(entries[i]);
        slot.key in owners && owners[slot.key] == slot.owner && slot.owner in workers
    {
      assert Endpoints(entries[..])[i] == ReadEndpoint(entries[i]);
    }

    /** An endpoint counts as registered under its own address or under any address. */
    method IsRegistered(e: Endpoint) returns (yes: bool)
      requires Valid() && e.Fits()
      ensures yes <==> e in owners || e.(ip := 0) in owners
    {
      if |workers| == 0 {
        return false;
      }
      var r := Lookup(e);
      if r.Index? {
        return true;
      }
      if e.ip == 0 {
        return false;
      }
      r := Lookup(e.(ip := 0));
      return r.Index?;
    }

    /** Registers an endpoint, reusing the first tombstone passed. */
    method Register(e: Endpoint, owner: nat) returns (r: Answer)
      requires Valid() && e.Fits()
      modifies this`owners, entries
      ensures Valid()
      ensures |workers| == 0 ==> r == Done && owners == old(owners)
      ensures |workers| > 0 ==>
                Registered(e.Lawful() && owner < U8 && owner in workers, old(AllFull(Endpoints(entries[..]))),
                           old(owners), e, owner, owners, r)
      ensures if e in old(owners) || e !in owners then unchanged(entries)
              else Landed(old(Endpoints(entries[..])), Endpoints(entries[..]), hash(e), e, owner)
    {
      if |workers| == 0 {
        return Done;
      }
      if (e.protocol != TCP && e.protocol != UDP) || e.port == 0 || owner >= U8 {
        return Invalid;
      }
      var worker := WorkerIndex(workers, owner);
      if worker.Nobody? {
        return Invalid;
      }
      r := Insert(e, owner);
    }

    method Insert(e: Endpoint, owner: nat) returns (r: Answer)
      requires Valid() && e.Lawful() && owner < U8 && owner in workers
      modifies this`owners, entries
      ensures Valid()
      ensures Registered(true, old(AllFull(Endpoints(entries[..]))), old(owners), e, owner, owners, r)
      ensures if e in old(owners) || e !in owners then unchanged(entries)
              else Landed(old(Endpoints(entries[..])), Endpoints(entries[..]), hash(e), e, owner)
    {
      hide Table;
      hide Owned, Landed;
      var n := entries.Length;
      ghost var s := Endpoints(entries[..]);
      var start := hash(e);
      var value := e.Identity() + owner;
      var tombstone: nat := n;
      for probe := 0 to n
        invariant unchanged(this) && unchanged(entries)
        invariant Missed(s, e, start, probe) && Spare(s, start, probe, tombstone)
      {
        var slot := At(start, probe, n);
        Choice(s, e, start, probe, tombstone);
        var w := entries[slot];
        if w == 0 {
          Absent(s, hash, owners, e, probe);
          var target := if tombstone == n then slot else tombstone;
          assert Endpoints(entries[..]) == s;
          r := Put(e, owner, target);
          return;
        }
        if w == TOMBSTONE {
          if tombstone == n {
            tombstone := slot;
          }
        } else {
          EndpointMatch(w, e);
          if w - w % U8 == e.Identity() {
            Found(slot);
            return if w == value then Done else InUse;
          }
        }
      }
      Absent(s, hash, owners, e, n);
      if tombstone != n {
        assert Endpoints(entries[..]) == s;
        r := Put(e, owner, tombstone);
        return;
      }
      Crammed(s, e, start);
      return NoSpace;
    }

    /** Stores the word of an absent endpoint. */
    method Put(e: Endpoint, owner: nat, slot: nat) returns (r: Answer)
      requires Valid() && e.Lawful() && owner < U8 && owner in workers && e !in owners && slot < entries.Length
      requires Foremost(Endpoints(entries[..]), hash(e), slot)
      modifies this`owners, entries
      ensures Valid() && r == Done && owners == old(owners)[e := owner]
      ensures Landed(old(Endpoints(entries[..])), Endpoints(entries[..]), hash(e), e, owner)
    {
      Placed(Endpoints(entries[..]), hash, owners, e, owner, Reach(hash(e), slot, entries.Length));
      Lands(Endpoints(entries[..]), hash(e), slot, e, owner);
      EndpointWord(e, owner);
      EndpointStore(entries[..], slot, e.Identity() + owner);
      entries[slot] := e.Identity() + owner;
      assert entries[..] == old(entries[..])[slot := e.Identity() + owner];
      owners := owners[e := owner];
      return Done;
    }

    /** Unregisters an endpoint only for the owner that registered it. */
    method Unregister(e: Endpoint, owner: nat)
      requires Valid() && e.Fits()
      modifies this, entries
      ensures Valid()
      ensures owners == if e in old(owners) && old(owners)[e] == owner then old(owners) - {e} else old(owners)
    {
      hide Table;
      if |workers| == 0 || owner >= U8 {
        return;
      }
      hide Owned;
      var n := entries.Length;
      ghost var s := Endpoints(entries[..]);
      var start := hash(e);
      var value := e.Identity() + owner;
      for probe := 0 to n
        invariant unchanged(this) && unchanged(entries)
        invariant Passed(s, e, owner, start, probe)
      {
        var slot := At(start, probe, n);
        var w := entries[slot];
        if w == 0 {
          NotHeld(s, hash, owners, e, owner, probe);
          return;
        }
        EndpointValue(w, e, owner);
        if w == value {
          if w != TOMBSTONE {
            Found(slot);
          }
          Bury(slot);
          return;
        }
      }
      NotHeld(s, hash, owners, e, owner, n);
    }

    /** Overwrites one word with the tombstone. */
    method Bury(slot: nat)
      requires Valid() && slot < entries.Length && entries[slot] != 0
      modifies this, entries
      ensures Valid()
      ensures owners == if old(entries[slot]) == TOMBSTONE then old(owners)
                        else old(owners) - {old(ReadEndpoint(entries[slot]).key)}
    {
      if entries[slot] != TOMBSTONE {
        Buried(Endpoints(entries[..]), hash, owners, slot);
        owners := owners - {ReadEndpoint(entries[slot]).key};
      }
      EndpointStore(entries[..], slot, TOMBSTONE);
      entries[slot] := TOMBSTONE;
      assert entries[..] == old(entries[..])[slot := TOMBSTONE];
    }
  }

  // ----- Established flows -------------------------------------------------------------

  ghost function Flows(addresses: seq<nat>, words: seq<nat>): (s: seq<Slot<Flow>>)
    requires |addresses| == |words|
    ensures |s| == |words| && forall i | 0 <= i < |s| :: s[i] == ReadFlow(addresses[i], words[i])
  {
    seq(|words|, i requires 0 <= i < |words| => ReadFlow(addresses[i], words[i]))
  }

  ghost predicate AllStamped(words: seq<nat>) {
    forall i | 0 <= i < |words| :: Stamped(words[i])
  }

  lemma FlowStore(addresses: seq<nat>, words: seq<nat>, i: nat, a: nat, w: nat)
    requires |addresses| == |words| && i < |words| && AllStamped(words) && Stamped(w)
    ensures Flows(addresses[i := a], words[i := w]) == Flows(addresses, words)[i := ReadFlow(a, w)]
    ensures AllStamped(words[i := w])
  {
  }

  class FlowTable {
    const workers: seq<nat>
    const hash: Flow -> nat
    const addresses: array<nat>
    const words: array<nat>
    /** The owner lcore of every registered flow. */
    ghost var owners: map<Flow, nat>

    ghost predicate Valid()
      reads this, addresses, words
    {
      && addresses != words && addresses.Length == words.Length > 0
      && Distinct(workers) && (forall f :: hash(f) < words.Length)
      && AllStamped(words[..]) && Table(Flows(addresses[..], words[..]), hash, owners)
      && Owned(owners, workers, U16)
    }

    /** rx_dispatch_configure_workers on the flow table; no workers is the reset state. */
    constructor (workers: seq<nat>, hash: Flow -> nat, size: nat)
      requires size > 0 && Distinct(workers) && forall f :: hash(f) < size
      ensures Valid() && fresh(addresses) && fresh(words) && words.Length == size && owners == map[]
      ensures this.workers == workers && this.hash == hash
    {
      this.workers, this.hash := workers, hash;
      owners := map[];
      addresses := new nat[size](_ => 0);
      words := new nat[size](_ => 0);
      new;
      Cleared(Flows(addresses[..], words[..]), hash);
    }

    lemma Found(i: nat)
      requires Valid() && i < words.Length && ReadFlow(addresses[i], words[i]).Full?
      ensures
        var slot := ReadFlow(addresses[i], words[i]);
        slot.key in owners && owners[slot.key] == slot.owner && slot.owner in workers
    {
      assert Flows(addresses[..], words[..])[i] == ReadFlow(addresses[i], words[i]);
    }

    /** The worker that owns a flow: exactly the registered one. */
    method Lookup(f: Flow) returns (r: Worker)
      requires Valid() && f.Fits()
      ensures Names(workers, owners, f, r)
    {
      hide Table;
      hide Owned;
      var n := words.Length;
      ghost var s := Flows(addresses[..], words[..]);
      var start := hash(f);
      for probe := 0 to n
        invariant Missed(s, f, start, probe)
      {
        var slot := At(start, probe, n);
        var w := words[slot];
        if w == 0 {
          Absent(s, hash, owners, f, probe);
          return Nobody;
        }
        if w != TOMBSTONE {
          FlowMatch(addresses[slot], w, f);
          if w - w % U16 == f.Identity() && addresses[slot] == f.Addresses() {
            Found(slot);
            r := WorkerIndex(workers, w % U16);
            return;
          }
        }
      }
      Absent(s, hash, owners, f, n);
      return Nobody;
    }

    /** Registers a flow, reusing the first tombstone passed. */
    method Register(f: Flow, owner: nat) returns (r: Answer)
      requires Valid() && f.Fits()
      modifies this`owners, addresses, words
      ensures Valid()
      ensures |workers| == 0 ==> r == Done && owners == old(owners)
      ensures |workers| > 0 ==>
                Registered(f.Lawful() && owner < U16 && owner in workers, old(AllFull(Flows(addresses[..], words[..]))),
                           old(owners), f, owner, owners, r)
      ensures if f in old(owners) || f !in owners then unchanged(addresses) && unchanged(words)
              else Landed(old(Flows(addresses[..], words[..])), Flows(addresses[..], words[..]), hash(f), f, owner)
    {
      if |workers| == 0 {
        return Done;
      }
      if f.remotePort == 0 || f.localPort == 0 || owner >= U16 {
        return Invalid;
      }
      var worker := WorkerIndex(workers, owner);
      if worker.Nobody? {
        return Invalid;
      }
      r := Insert(f, owner);
    }

    method Insert(f: Flow, owner: nat) returns (r: Answer)
      requires Valid() && f.Lawful() && owner < U16 && owner in workers
      modifies this`owners, addresses, words
      ensures Valid()
      ensures Registered(true, old(AllFull(Flows(addresses[..], words[..]))), old(owners), f, owner, owners, r)
      ensures if f in old(owners) || f !in owners then unchanged(addresses) && unchanged(words)
              else Landed(old(Flows(addresses[..], words[..])), Flows(addresses[..], words[..]), hash(f), f, owner)
    {
      hide Table;
      hide Owned, Landed;
      var n := words.Length;
      ghost var s := Flows(addresses[..], words[..]);
      var start := hash(f);
      var value := f.Identity() + owner;
      var tombstone: nat := n;
      for probe := 0 to n
        invariant unchanged(this) && unchanged(addresses) && unchanged(words)
        invariant Missed(s, f, start, probe) && Spare(s, start, probe, tombstone)
      {
        var slot := At(start, probe, n);
        Choice(s, f, start, probe, tombstone);
        var w := words[slot];
        if w == 0 {
          Absent(s, hash, owners, f, probe);
          var target := if tombstone == n then slot else tombstone;
          assert Flows(addresses[..], words[..]) == s;
          r := Put(f, owner, target);
          return;
        }
        if w == TOMBSTONE {
          if tombstone == n {
            tombstone := slot;
          }
        } else {
          FlowMatch(addresses[slot], w, f);
          if w - w % U16 == f.Identity() && addresses[slot] == f.Addresses() {
            Found(slot);
            return if w == value then Done else InUse;
          }
        }
      }
      Absent(s, hash, owners, f, n);
      if tombstone != n {
        assert Flows(addresses[..], words[..]) == s;
        r := Put(f, owner, tombstone);
        return;
      }
      Crammed(s, f, start);
      return NoSpace;
    }

    /** While fewer flows than slots are registered, no registration runs out of space. */
    lemma Room()
      requires Valid() && |owners| < words.Length
      ensures !AllFull(Flows(addresses[..], words[..]))
    {
      var s := Flows(addresses[..], words[..]);
      if AllFull(s) {
        Capacity(s, hash, owners);
      }
    }

    /** Stores the two words of an absent flow: unpublish, write the addresses, publish. */
    method Put(f: Flow, owner: nat, slot: nat) returns (r: Answer)
      requires Valid() && f.Lawful() && owner < U16 && owner in workers && f !in owners && slot < words.Length
      requires Foremost(Flows(addresses[..], words[..]), hash(f), slot)
      modifies this`owners, addresses, words
      ensures Valid() && r == Done && owners == old(owners)[f := owner]
      ensures Landed(old(Flows(addresses[..], words[..])), Flows(addresses[..], words[..]), hash(f), f, owner)
    {
      hide Table;
      Placed(Flows(addresses[..], words[..]), hash, owners, f, owner, Reach(hash(f), slot, words.Length));
      Lands(Flows(addresses[..], words[..]), hash(f), slot, f, owner);
      FlowWord(f, owner);
      FlowStore(addresses[..], words[..], slot, f.Addresses(), f.Identity() + owner);
      words[slot] := 0;
      addresses[slot] := f.Addresses();
      words[slot] := f.Identity() + owner;
      assert addresses[..] == old(addresses[..])[slot := f.Addresses()];
      assert words[..] == old(words[..])[slot := f.Identity() + owner];
      owners := owners[f := owner];
      return Done;
    }

    /** Unregisters a flow only for the owner that registered it. */
    method Unregister(f: Flow, owner: nat)
      requires Valid() && f.Fits()
      modifies this, words
      ensures Valid()
      ensures owners == if f in old(owners) && old(owners)[f] == owner then old(owners) - {f} else old(owners)
    {
      hide Table;
      if |workers| == 0 || owner >= U16 {
        return;
      }
      hide Owned;
      var n := words.Length;
      ghost var s := Flows(addresses[..], words[..]);
      var start := hash(f);
      var value := f.Identity() + owner;
      for probe := 0 to n
        invariant unchanged(this) && unchanged(words)
        invariant Passed(s, f, owner, start, probe)
      {
        var slot := At(start, probe, n);
        var w := words[slot];
        if w == 0 {
          NotHeld(s, hash, owners, f, owner, probe);
          return;
        }
        FlowValue(addresses[slot], w, f, owner);
        if w == value && addresses[slot] == f.Addresses() {
          Found(slot);
          Bury(slot);
          return;
        }
      }
      NotHeld(s, hash, owners, f, owner, n);
    }

    /** Overwrites one live ports word with the tombstone; its addresses stay behind. */
    method Bury(slot: nat)
      requires Valid() && slot < words.Length && ReadFlow(addresses[slot], words[slot]).Full?
      modifies this, words
      ensures Valid() && owners == old(owners) - {old(ReadFlow(addresses[slot], words[slot]).key)}
    {
      hide Table;
      Buried(Flows(addresses[..], words[..]), hash, owners, slot);
      owners := owners - {ReadFlow(addresses[slot], words[slot]).key};
      FlowStore(addresses[..], words[..], slot, addresses[slot], TOMBSTONE);
      assert addresses[..][slot := addresses[slot]] == addresses[..];
      words[slot] := TOMBSTONE;
      assert words[..] == old(words[..])[slot := TOMBSTONE];
    }
  }
}
