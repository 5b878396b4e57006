/**
 * Transmit scheduling (socket.c): the FIFO of sockets with something to send, the buckets
 * of sockets waiting for an address to resolve, and the budgeted drain of the FIFO.
 */
module TxSchedule {
  import opened Serial
  import opened Lists
  import opened Links

  /** Per-socket scheduling state; `flushes` says its protocol has a flush operation. */
  datatype Sock = Sock(queued: bool, waiting: bool, ip: u32, flushes: bool)

  datatype Outcome = Idle | Retry | Destroyed

  /** What happened to a socket on a list: it was flushed, it has no flush operation,
      or a request took it off. */
  datatype Note = Flushed(id: Id, outcome: Outcome) | Skipped(id: Id) | Left(id: Id)

  /** What a flush may do to the schedule while it runs. */
  datatype Action =
    | MarkIt(id: Id)
    | UnlinkIt(id: Id)
    | WaitIt(id: Id, ip: u32)
    | ResolveIt(ip: u32)
    | DropIt(id: Id)
    | AddIt(flushes: bool)

  /** One flush: what it does to the schedule, and how it ends. */
  datatype Flight = Flight(script: seq<Action>, outcome: Outcome)

  /** The `k`-th flush of a drain. */
  function FlightAt(flights: seq<Flight>, k: nat): Flight {
    if k < |flights| then flights[k] else Flight([], Idle)
  }

  // ----- Turns -------------------------------------------------------------------------

  ghost predicate Noted(notes: seq<Note>, id: Id) {
    exists i :: 0 <= i < |notes| && notes[i].id == id
  }

  /** The sockets of `q` nothing has happened to yet. */
  ghost function Remaining(q: seq<Id>, notes: seq<Note>): seq<Id> {
    if q == [] then [] else (if Noted(notes, q[0]) then [] else [q[0]]) + Remaining(q[1..], notes)
  }

  /** Flush `j` came in turn: after everything queued before it, or after the whole queue. */
  ghost predicate InTurn(q: seq<Id>, notes: seq<Note>, j: nat)
    requires j < |notes|
  {
    || (forall i | 0 <= i < |q| :: Noted(notes[..j], q[i]))
    || (&& !Noted(notes[..j], notes[j].id)
        && exists p :: 0 <= p < |q| && q[p] == notes[j].id && forall i | 0 <= i < p :: Noted(notes[..j], q[i]))
  }

  ghost predicate AllInTurn(q: seq<Id>, notes: seq<Note>) {
    forall j | 0 <= j < |notes| && notes[j].Flushed? :: InTurn(q, notes, j)
  }

  lemma NotedMore(notes: seq<Note>, n: Note, id: Id)
    ensures Noted(notes + [n], id) <==> Noted(notes, id) || n.id == id
  {
    var more := notes + [n];
    if Noted(notes, id) {
      var i :| 0 <= i < |notes| && notes[i].id == id;
      assert more[i].id == id;
    }
    assert more[|notes|] == n;
  }

  lemma {:induction false} RemainingNone(q: seq<Id>)
    ensures Remaining(q, []) == q
  {
    if q != [] {
      RemainingNone(q[1..]);
    }
  }

  lemma {:induction false} RemainingIn(q: seq<Id>, notes: seq<Note>, id: Id)
    ensures id in Remaining(q, notes) <==> id in q && !Noted(notes, id)
  {
    if q != [] {
      RemainingIn(q[1..], notes, id);
      assert q == [q[0]] + q[1..];
    }
  }

  lemma {:induction false} WithoutAbsent(list: seq<Id>, id: Id)
    requires id !in list
    ensures Without(list, id) == list
  {
    if list != [] {
      WithoutAbsent(list[1..], id);
    }
  }

  lemma {:induction false} WithoutPlus(a: seq<Id>, b: seq<Id>, id: Id)
    ensures Without(a + b, id) == if id in a then Without(a, id) + b else a + Without(b, id)
  {
    if a == [] {
      assert a + b == b;
    } else {
      var h, t := a[0], a[1..];
      assert (a + b)[0] == h && (a + b)[1..] == t + b && a == [h] + t;
      WithoutPlus(t, b, id);
      if h != id {
        assert [h] + (Without(t, id) + b) == [h] + Without(t, id) + b;
        assert [h] + (t + Without(b, id)) == a + Without(b, id);
      }
    }
  }

  /** One more note takes exactly that socket out of what remains. */
  lemma {:induction false} RemainingMore(q: seq<Id>, notes: seq<Note>, n: Note)
    requires NoDup(q)
    ensures Remaining(q, notes + [n]) == Without(Remaining(q, notes), n.id)
  {
    if q != [] {
      RemainingMore(q[1..], notes, n);
      NotedMore(notes, n, q[0]);
      RemainingIn(q[1..], notes, n.id);
      var rest := Remaining(q[1..], notes);
      assert [] + rest == rest && ([q[0]] + rest)[1..] == rest;
      if n.id == q[0] {
        assert n.id !in q[1..];
        WithoutAbsent(rest, n.id);
      }
    }
  }

  /** What remains of the entry queue still heads the FIFO. */
  lemma PrefixWithout(front: seq<Id>, list: seq<Id>, id: Id)
    requires front <= list && NoDup(list)
    ensures Without(front, id) <= Without(list, id)
  {
    var rest := list[|front|..];
    assert list == front + rest;
    WithoutPlus(front, rest, id);
    if id !in front {
      WithoutAbsent(front, id);
    }
  }

  /** The head of what remains is next in turn. */
  lemma {:induction false} HeadPosition(q: seq<Id>, notes: seq<Note>) returns (p: nat)
    requires Remaining(q, notes) != []
    ensures
      && p < |q| && q[p] == Remaining(q, notes)[0] && !Noted(notes, q[p]) && forall i | 0 <= i < p :: Noted(notes, q[i])
  {
    if Noted(notes, q[0]) {
      var k := HeadPosition(q[1..], notes);
      p := k + 1;
      forall i | 0 <= i < p ensures Noted(notes, q[i]) {
        if i > 0 {
          assert q[i] == q[1..][i - 1];
        }
      }
    } else {
      p := 0;
    }
  }

  lemma NoneRemaining(q: seq<Id>, notes: seq<Note>)
    requires Remaining(q, notes) == []
    ensures forall i | 0 <= i < |q| :: Noted(notes, q[i])
  {
    forall i | 0 <= i < |q| ensures Noted(notes, q[i]) {
      RemainingIn(q, notes, q[i]);
    }
  }

  /** The FIFO still starts with what remains, and every flush came in turn. */
  ghost predicate Orderly(q: seq<Id>, notes: seq<Note>, dirty: seq<Id>) {
    NoDup(q) && Remaining(q, notes) <= dirty && AllInTurn(q, notes)
  }

  lemma TurnsKept(q: seq<Id>, notes: seq<Note>, n: Note)
    requires AllInTurn(q, notes) && (n.Flushed? ==> InTurn(q, notes + [n], |notes|))
    ensures AllInTurn(q, notes + [n])
  {
    var more := notes + [n];
    forall j | 0 <= j < |more| && more[j].Flushed? ensures InTurn(q, more, j) {
      if j < |notes| {
        assert more[..j] == notes[..j] && InTurn(q, notes, j);
      }
    }
  }

  /** Taking a socket off the FIFO without flushing it. */
  lemma OrderlyLess(q: seq<Id>, notes: seq<Note>, n: Note, dirty: seq<Id>)
    requires Orderly(q, notes, dirty) && NoDup(dirty) && !n.Flushed?
    ensures Orderly(q, notes + [n], Without(dirty, n.id))
  {
    RemainingMore(q, notes, n);
    PrefixWithout(Remaining(q, notes), dirty, n.id);
    TurnsKept(q, notes, n);
  }

  /** Flushing the head. */
  lemma OrderlyHead(q: seq<Id>, notes: seq<Note>, dirty: seq<Id>, outcome: Outcome)
    requires Orderly(q, notes, dirty) && NoDup(dirty) && dirty != []
    ensures Orderly(q, notes + [Flushed(dirty[0], outcome)], Without(dirty, dirty[0]))
    ensures Remaining(q, notes) != [] ==>
              |Remaining(q, notes + [Flushed(dirty[0], outcome)])| == |Remaining(q, notes)| - 1
  {
    var n := Flushed(dirty[0], outcome);
    var more := notes + [n];
    RemainingMore(q, notes, n);
    PrefixWithout(Remaining(q, notes), dirty, n.id);
    assert more[..|notes|] == notes;
    if Remaining(q, notes) != [] {
      var p := HeadPosition(q, notes);
      assert InTurn(q, more, |notes|);
    } else {
      NoneRemaining(q, notes);
    }
    TurnsKept(q, notes, n);
  }

  /** No socket is flushed twice before every socket queued at entry had its turn. */
  lemma OnceFirst(q: seq<Id>, notes: seq<Note>, i: nat, j: nat)
    requires
      && AllInTurn(q, notes) && i < j < |notes| && notes[i].Flushed? && notes[j].Flushed? && notes[j].id == notes[i].id
    ensures forall k | 0 <= k < |q| :: Noted(notes[..j], q[k])
  {
    assert InTurn(q, notes, j);
    assert notes[..j][i].id == notes[j].id;
  }

  // ----- The lists ---------------------------------------------------------------------

  /** The sockets of a bucket that wait for `ip`. */
  function For(bucket: seq<Id>, socks: map<Id, Sock>, ip: u32): seq<Id> {
    if bucket == [] then []
    else (if bucket[0] in socks && socks[bucket[0]].ip == ip then [bucket[0]] else []) + For(bucket[1..], socks, ip)
  }

  /** One socket's flags say which list it is on, and it is on at most one. */
  ghost predicate Seated(id: Id, s: Sock, dirty: seq<Id>, waits: seq<seq<Id>>, bucket: u32 -> nat) {
    && !(s.queued && s.waiting)
    && (s.queued <==> id in dirty)
    && (forall b | 0 <= b < |waits| :: id in waits[b] <==> s.waiting && b == bucket(s.ip))
  }

  ghost predicate AllSeated(socks: map<Id, Sock>, dirty: seq<Id>, waits: seq<seq<Id>>, bucket: u32 -> nat) {
    && (forall id | id in socks :: Seated(id, socks[id], dirty, waits, bucket))
    && (forall id | id in dirty :: id in socks)
    && (forall b, id | 0 <= b < |waits| && id in waits[b] :: id in socks)
  }

  ghost predicate AllDistinct(waits: seq<seq<Id>>) {
    forall b | 0 <= b < |waits| :: NoDup(waits[b])
  }

  /** What resolving `ip` makes of a socket. */
  function After(s: Sock, ip: u32): Sock {
    if s.waiting && s.ip == ip then Sock(true, false, 0, s.flushes) else s
  }

  ghost predicate Woken(was: map<Id, Sock>, now: map<Id, Sock>, ip: u32) {
    now.Keys == was.Keys && forall id | id in was :: now[id] == After(was[id], ip)
  }

  /** Taking out the item at hand leaves the ones passed over and the rest. */
  lemma Dropped(kept: seq<Id>, list: seq<Id>, k: nat)
    requires k < |list| && NoDup(list) && forall x :: x in kept ==> x in list[..k]
    ensures Without(kept + list[k..], list[k]) == kept + list[k + 1..]
    ensures kept + [list[k]] + list[k + 1..] == kept + list[k..]
  {
    WithoutPlus(kept, list[k..], list[k]);
    assert list[k..][0] == list[k] && list[k..][1..] == list[k + 1..];
  }

  lemma Fresh(list: seq<Id>, k: nat)
    requires NoDup(list) && k < |list|
    ensures list[k] !in list[..k]
  {
  }

  lemma {:induction false} ForMore(list: seq<Id>, k: nat, socks: map<Id, Sock>, ip: u32)
    requires k < |list| && list[k] in socks
    ensures For(list[..k + 1], socks, ip) == For(list[..k], socks, ip) + if socks[list[k]].ip == ip then [list[k]]
              else []
    decreases |list|
  {
    if k > 0 {
      ForMore(list[1..], k - 1, socks, ip);
      assert list[..k + 1][1..] == list[1..][..k] && list[..k][1..] == list[1..][..k - 1];
    }
  }

  /** The sockets of a bucket that wait for another address. */
  ghost function Others(bucket: seq<Id>, socks: map<Id, Sock>, ip: u32): seq<Id> {
    if bucket == [] then []
    else
      (if bucket[0] in socks && socks[bucket[0]].ip == ip then [] else [bucket[0]]) + Others(bucket[1..], socks, ip)
  }

  lemma {:induction false} OthersIn(list: seq<Id>, socks: map<Id, Sock>, ip: u32)
    ensures forall x :: x in Others(list, socks, ip) ==> x in list
  {
    if list != [] {
      OthersIn(list[1..], socks, ip);
    }
  }

  lemma {:induction false} OthersMore(list: seq<Id>, k: nat, socks: map<Id, Sock>, ip: u32)
    requires k < |list| && list[k] in socks
    ensures Others(list[..k + 1], socks, ip) == Others(list[..k], socks, ip) + if socks[list[k]].ip == ip then []
              else [list[k]]
    decreases |list|
  {
    if k > 0 {
      OthersMore(list[1..], k - 1, socks, ip);
      assert list[..k + 1][1..] == list[1..][..k] && list[..k][1..] == list[1..][..k - 1];
    }
  }

  // ----- The schedule as a value ---------------------------------------------------------

  /** The sockets, the FIFO and the buckets; `next` is the name of the next socket. */
  datatype Sched = Sched(socks: map<Id, Sock>, next: nat, fifo: seq<Id>, waits: seq<seq<Id>>)

  /** Queued at the tail, unless it is on a list. */
  ghost function Marked(s: Sched, id: Id): Sched {
    if id !in s.socks || s.socks[id].queued || s.socks[id].waiting then s
    else s.(fifo := s.fifo + [id], socks := s.socks[id := s.socks[id].(queued := true)])
  }

  /** On no list. */
  ghost function Freed(s: Sched, id: Id, bucket: u32 -> nat): Sched {
    if id !in s.socks then s
    else
      var k := s.socks[id];
      var b := bucket(k.ip);
      Sched(s.socks[id := Sock(false, false, 0, k.flushes)], s.next,
            if k.queued then Without(s.fifo, id) else s.fifo,
            if k.waiting && b < |s.waits| then s.waits[b := Without(s.waits[b], id)] else s.waits)
  }

  /** In the bucket of an address. */
  ghost function Parked(s: Sched, id: Id, ip: u32, bucket: u32 -> nat): Sched {
    if id !in s.socks then s
    else
      var f := Freed(s, id, bucket);
      f.(socks := f.socks[id := Sock(false, true, ip, s.socks[id].flushes)],
         waits := if bucket(ip) < |f.waits| then f.waits[bucket(ip) := [id] + f.waits[bucket(ip)]] else f.waits)
  }

  /** Whoever waited for the address is queued. */
  ghost function Resolved(s: Sched, ip: u32, bucket: u32 -> nat): Sched {
    var b := bucket(ip);
    if b >= |s.waits| then s
    else
      s.(socks := map id | id in s.socks :: After(s.socks[id], ip),
         fifo := s.fifo + For(s.waits[b], s.socks, ip), waits := s.waits[b := Others(s.waits[b], s.socks, ip)])
  }

  ghost function Did(s: Sched, a: Action, bucket: u32 -> nat): Sched {
    match a
    case MarkIt(id) => Marked(s, id)
    case UnlinkIt(id) => Freed(s, id, bucket)
    case WaitIt(id, ip) => Parked(s, id, ip, bucket)
    case ResolveIt(ip) => Resolved(s, ip, bucket)
    case DropIt(id) => var f := Freed(s, id, bucket); f.(socks := f.socks - {id})
    case AddIt(flushes) => s.(socks := s.socks[s.next := Sock(false, false, 0, flushes)], next := s.next + 1)
  }

  ghost function DidAll(s: Sched, script: seq<Action>, bucket: u32 -> nat): Sched {
    if script == [] then s else Did(DidAll(s, script[..|script| - 1], bucket), script[|script| - 1], bucket)
  }

  /** The head of the FIFO leaves it. */
  ghost function Popped(s: Sched): Sched {
    if s.fifo == [] || s.fifo[0] !in s.socks then s
    else s.(fifo := s.fifo[1..], socks := s.socks[s.fifo[0] := s.socks[s.fifo[0]].(queued := false)])
  }

  /** A flush of the head: its steps, and back to the tail if it asked for it. */
  ghost function Turned(s: Sched, f: Flight, bucket: u32 -> nat): Sched {
    if s.fifo == [] then s
    else
      var after := DidAll(Popped(s), f.script, bucket);
      if f.outcome == Retry then Marked(after, s.fifo[0]) else after
  }

  ghost predicate HeadFlushes(s: Sched) {
    s.fifo != [] && s.fifo[0] in s.socks && s.socks[s.fifo[0]].flushes
  }

  /** The drain, on plain sequences, after `k` flushes. */
  ghost function Drained(s: Sched, flights: seq<Flight>, k: nat, budget: nat, bucket: u32 -> nat): Sched
    decreases budget - k, |s.fifo|
  {
    if k >= budget || s.fifo == [] || s.fifo[0] !in s.socks then s
    else if HeadFlushes(s) then Drained(Turned(s, FlightAt(flights, k), bucket), flights, k + 1, budget, bucket)
    else Drained(Popped(s), flights, k, budget, bucket)
  }

  /** What the requests of a flush take off the lists, in order. */
  ghost function Taken(s: Sched, script: seq<Action>, bucket: u32 -> nat): seq<Note> {
    if script == [] then []
    else
      var n := |script| - 1;
      Taken(s, script[..n], bucket) + TookOff(DidAll(s, script[..n], bucket), script[n])
  }

  /** What one turn of the drain reports. */
  ghost function TurnTold(s: Sched, f: Flight, bucket: u32 -> nat): seq<Note> {
    if s.fifo == [] then []
    else if HeadFlushes(s) then [Flushed(s.fifo[0], f.outcome)] + Taken(Popped(s), f.script, bucket)
    else [Skipped(s.fifo[0])]
  }

  /** What the drain reports from its `k`-th flush on. */
  ghost function Told(s: Sched, flights: seq<Flight>, k: nat, budget: nat, bucket: u32 -> nat): seq<Note>
    decreases budget - k, |s.fifo|
  {
    if k >= budget || s.fifo == [] || s.fifo[0] !in s.socks then []
    else
      TurnTold(s, FlightAt(flights, k), bucket) +
      if HeadFlushes(s) then Told(Turned(s, FlightAt(flights, k), bucket), flights, k + 1, budget, bucket)
      else Told(Popped(s), flights, k, budget, bucket)
  }

  /** Every queued socket once, in order: flushed if it can be. */
  ghost function Once(s: Sched): seq<Note>
    requires forall id :: id in s.fifo ==> id in s.socks
  {
    seq(|s.fifo|, i requires 0 <= i < |s.fifo| =>
      if s.socks[s.fifo[i]].flushes then Flushed(s.fifo[i], Idle) else Skipped(s.fifo[i]))
  }

  /** Flushes that have nothing to add: with budget for the whole queue, the drain flushes each
      socket once that has a flush operation, and leaves the FIFO empty. */
  lemma {:induction false} AllIdle(s: Sched, flights: seq<Flight>, k: nat, budget: nat, bucket: u32 -> nat)
    requires NoDup(s.fifo) && (forall id :: id in s.fifo ==> id in s.socks) && budget >= k + |s.fifo|
    requires forall i: nat :: k <= i < k + |s.fifo| ==> FlightAt(flights, i) == Flight([], Idle)
    ensures Drained(s, flights, k, budget, bucket).fifo == []
    ensures Told(s, flights, k, budget, bucket) == Once(s)
    decreases |s.fifo|
  {
    if s.fifo != [] {
      var t, n := Popped(s), Once(s)[0];
      assert FlightAt(flights, k) == Flight([], Idle);
      assert forall id :: id in t.fifo ==> id in s.fifo && id != s.fifo[0] by {
        assert forall i :: 0 <= i < |t.fifo| ==> t.fifo[i] == s.fifo[i + 1];
      }
      AllIdle(t, flights, if HeadFlushes(s) then k + 1 else k, budget, bucket);
      assert Taken(t, [], bucket) == [] && DidAll(t, [], bucket) == t;
      assert Once(s) == [n] + Once(t);
    }
  }

  // ----- What a drain may do -------------------------------------------------------------

  /** The socket a request takes off its list, if any. */
  ghost predicate Takes(a: Action, id: Id) {
    (a.UnlinkIt? || a.WaitIt? || a.DropIt?) && a.id == id
  }

  ghost predicate Listed(s: Sched, id: Id) {
    id in s.socks && (s.socks[id].queued || s.socks[id].waiting)
  }

  ghost function TookOff(s: Sched, a: Action): seq<Note> {
    if (a.UnlinkIt? || a.WaitIt? || a.DropIt?) && Listed(s, a.id) then [Left(a.id)] else []
  }

  /** Names are not used again, and whether a socket has a flush operation does not change. */
  ghost predicate Kinds(was: Sched, s: Sched) {
    && was.next <= s.next && (forall id :: id in was.socks ==> id < was.next)
    && forall id :: id in s.socks ==>
         id < s.next && (id < was.next ==> id in was.socks && s.socks[id].flushes == was.socks[id].flushes)
  }

  /** Exactly the sockets without a flush operation are skipped. */
  ghost predicate Honest(was: Sched, notes: seq<Note>) {
    forall i :: 0 <= i < |notes| && notes[i].id in was.socks ==>
      (notes[i].Flushed? ==> was.socks[notes[i].id].flushes) && (notes[i].Skipped? ==> !was.socks[notes[i].id].flushes)
  }

  /** A request in the script takes the socket off. */
  ghost predicate Asks(script: seq<Action>, id: Id) {
    exists i :: 0 <= i < |script| && Takes(script[i], id)
  }

  /** Whatever left a list left it because the flush running then asked for it. */
  ghost predicate Caused(notes: seq<Note>, flights: seq<Flight>) {
    forall j :: 0 <= j < |notes| && notes[j].Left? ==>
      var k := Flushes(notes[..j]);
      k > 0 && Asks(FlightAt(flights, k - 1).script, notes[j].id)
  }

  /** The last thing that happened to a socket is a flush that asked to be tried again. */
  ghost predicate Retries(notes: seq<Note>, id: Id) {
    && notes != []
    && var last := notes[|notes| - 1];
       if last.id == id then last == Flushed(id, Retry) else Retries(notes[..|notes| - 1], id)
  }

  /** Such a socket is on a list; `busy` are the ones being flushed. */
  ghost predicate Owed(notes: seq<Note>, s: Sched, busy: set<Id>) {
    forall id :: id in s.socks && id !in busy && Retries(notes, id) ==> Listed(s, id)
  }

  /** A request in the script puts the socket on a list. */
  ghost predicate Wants(script: seq<Action>, id: Id) {
    exists i :: 0 <= i < |script| && (script[i].MarkIt? || script[i].WaitIt?) && script[i].id == id
  }

  /** The last flush of a socket did not ask to be tried again, and neither it nor any flush
      since then asked for the socket. */
  ghost predicate Rests(notes: seq<Note>, flights: seq<Flight>, id: Id) {
    && notes != []
    && var n, earlier := notes[|notes| - 1], notes[..|notes| - 1];
       if n.Flushed? then
         && !Wants(FlightAt(flights, Flushes(earlier)).script, id)
         && (if n.id == id then n.outcome != Retry else Rests(earlier, flights, id))
       else Rests(earlier, flights, id)
  }

  /** Such a socket is on no list. */
  ghost predicate Rested(notes: seq<Note>, flights: seq<Flight>, s: Sched) {
    forall id :: id in s.socks && Rests(notes, flights, id) ==> !Listed(s, id)
  }

  ghost predicate Kept(was: Sched, notes: seq<Note>, flights: seq<Flight>, s: Sched, busy: set<Id>) {
    && Kinds(was, s) && Honest(was, notes) && Caused(notes, flights) && Owed(notes, s, busy)
    && Rested(notes, flights, s)
  }

  lemma {:induction false} RestsMore(notes: seq<Note>, n: Note, flights: seq<Flight>, id: Id)
    ensures Rests(notes + [n], flights, id) <==>
              if n.Flushed? then
                && !Wants(FlightAt(flights, Flushes(notes)).script, id)
                && (if n.id == id then n.outcome != Retry else Rests(notes, flights, id))
              else Rests(notes, flights, id)
  {
    assert (notes + [n])[..|notes|] == notes;
  }

  /** Nobody has asked for a socket that rests, the running flush included. */
  lemma {:induction false} RestsUnasked(notes: seq<Note>, flights: seq<Flight>, id: Id)
    requires Rests(notes, flights, id)
    ensures Flushes(notes) > 0 && !Wants(FlightAt(flights, Flushes(notes) - 1).script, id)
  {
    hide Wants;
    var n := notes[|notes| - 1];
    if !n.Flushed? { RestsUnasked(notes[..|notes| - 1], flights, id); }
  }

  /** A name that occurs in no note does not rest. */
  lemma {:induction false} NotRested(notes: seq<Note>, flights: seq<Flight>, id: Id)
    requires forall i :: 0 <= i < |notes| ==> notes[i].id != id
    ensures !Rests(notes, flights, id)
  {
    if notes != [] { NotRested(notes[..|notes| - 1], flights, id); }
  }

  /** A request of the running flush puts nobody on a list who rests. */
  lemma {:induction false} RestedDid(notes: seq<Note>, flights: seq<Flight>, s: Sched, a: Action, bucket: u32 -> nat)
    requires Rested(notes, flights, s) && Flushes(notes) > 0 && a in FlightAt(flights, Flushes(notes) - 1).script
    requires s.next !in s.socks && forall i :: 0 <= i < |notes| ==> notes[i].id < s.next
    ensures Rested(notes + TookOff(s, a), flights, Did(s, a, bucket))
  {
    hide Rests, Flushes;
    var t, off := Did(s, a, bucket), TookOff(s, a);
    var script := FlightAt(flights, Flushes(notes) - 1).script;
    NotRested(notes, flights, s.next);
    forall id | id in t.socks && Rests(notes + off, flights, id)
      ensures !Listed(t, id)
    {
      if off == [] { assert notes + off == notes; } else { RestsMore(notes, off[0], flights, id); }
      RestsUnasked(notes, flights, id);
      assert !Listed(s, id);
      var i :| 0 <= i < |script| && script[i] == a;
    }
  }

  lemma {:induction false} KeptStart(s: Sched, flights: seq<Flight>)
    requires forall id :: id in s.socks ==> id < s.next
    ensures Kept(s, [], flights, s, {})
  {
    hide Wants;
  }

  lemma {:induction false} CausedMore(notes: seq<Note>, n: Note, flights: seq<Flight>)
    requires Caused(notes, flights)
    requires n.Left? ==> Flushes(notes) > 0 && Asks(FlightAt(flights, Flushes(notes) - 1).script, n.id)
    ensures Caused(notes + [n], flights)
  {
    hide Asks, Flushes;
    var more := notes + [n];
    forall j | 0 <= j < |more| && more[j].Left?
      ensures
        var k := Flushes(more[..j]);
        k > 0 && Asks(FlightAt(flights, k - 1).script, more[j].id)
    {
      if j < |notes| {
        assert more[..j] == notes[..j] && more[j] == notes[j];
      } else {
        assert more[..j] == notes;
      }
    }
  }

  lemma {:induction false} RetriesMore(notes: seq<Note>, n: Note, id: Id)
    ensures Retries(notes + [n], id) <==> if n.id == id then n == Flushed(id, Retry) else Retries(notes, id)
  {
    assert (notes + [n])[..|notes|] == notes;
  }

  lemma {:induction false} OwedLess(notes: seq<Note>, n: Note, s: Sched, t: Sched, busy: set<Id>)
    requires Owed(notes, s, busy) && !n.Flushed?
    requires forall id :: id in t.socks && id != n.id ==> id in s.socks && t.socks[id] == s.socks[id]
    ensures Owed(notes + [n], t, busy)
  {
    hide Retries;
    forall id | id in t.socks && id !in busy && Retries(notes + [n], id)
      ensures Listed(t, id)
    {
      RetriesMore(notes, n, id);
      assert Listed(s, id);
    }
  }

  /** One request of the running flush. */
  lemma {:induction false} KeptDid(was: Sched, notes: seq<Note>, flights: seq<Flight>, s: Sched, busy: set<Id>,
                                   a: Action,
                bucket: u32 -> nat)
    requires Kept(was, notes, flights, s, busy)
    requires Flushes(notes) > 0 && a in FlightAt(flights, Flushes(notes) - 1).script
    requires s.next !in s.socks && forall i :: 0 <= i < |notes| ==> notes[i].id < s.next
    ensures Kept(was, notes + TookOff(s, a), flights, Did(s, a, bucket), busy)
  {
    hide Retries, Caused, Asks, Flushes, Rested;
    var t, off := Did(s, a, bucket), TookOff(s, a);
    RestedDid(notes, flights, s, a, bucket);
    if off == [] {
      assert notes + off == notes;
      OwedDid(notes, s, busy, a, bucket);
    } else {
      AskedFor(FlightAt(flights, Flushes(notes) - 1).script, a);
      CausedMore(notes, Left(a.id), flights);
      OwedLess(notes, Left(a.id), s, t, busy);
    }
  }

  lemma {:induction false} AskedFor(script: seq<Action>, a: Action)
    requires a in script && (a.UnlinkIt? || a.WaitIt? || a.DropIt?)
    ensures Asks(script, a.id)
  {
    var i :| 0 <= i < |script| && script[i] == a;
    assert Takes(script[i], a.id);
  }

  lemma {:induction false} NotRetried(notes: seq<Note>, id: Id)
    requires forall i :: 0 <= i < |notes| ==> notes[i].id != id
    ensures !Retries(notes, id)
  {
    if notes != [] {
      NotRetried(notes[..|notes| - 1], id);
    }
  }

  lemma {:induction false} OwedDid(notes: seq<Note>, s: Sched, busy: set<Id>, a: Action, bucket: u32 -> nat)
    requires Owed(notes, s, busy) && TookOff(s, a) == []
    requires s.next !in s.socks && forall i :: 0 <= i < |notes| ==> notes[i].id < s.next
    ensures Owed(notes, Did(s, a, bucket), busy)
  {
    hide Retries;
    var t := Did(s, a, bucket);
    NotRetried(notes, s.next);
    forall id | id in t.socks && id !in busy && Retries(notes, id)
      ensures Listed(t, id)
    {
      assert id in s.socks && Listed(s, id);
    }
  }

  /** The head is skipped, or its flush begins. */
  lemma {:induction false} KeptPop(was: Sched, notes: seq<Note>, flights: seq<Flight>, s: Sched, n: Note)
    requires Kept(was, notes, flights, s, {}) && s.fifo != [] && s.fifo[0] in s.socks && n.id == s.fifo[0]
    requires (n.id < was.next ==> n.id in was.socks) && !s.socks[n.id].waiting
    requires if HeadFlushes(s) then n.Flushed? else n.Skipped?
    ensures Kept(was, notes + [n], flights, Popped(s), if n.Flushed? then {n.id} else {})
  {
    hide Retries, Caused, Rests, Wants;
    CausedMore(notes, n, flights);
    forall id | id in Popped(s).socks && Rests(notes + [n], flights, id)
      ensures !Listed(Popped(s), id)
    {
      RestsMore(notes, n, flights, id);
    }
    forall id | id in Popped(s).socks && id != n.id && Retries(notes + [n], id)
      ensures Listed(Popped(s), id)
    {
      RetriesMore(notes, n, id);
      assert Listed(s, id);
    }
    RetriesMore(notes, n, n.id);
  }

  /** The flush ends: one that asked to be tried again is on a list. */
  lemma {:induction false} KeptEnd(was: Sched, notes: seq<Note>, flights: seq<Flight>, s: Sched, id: Id,
                                   outcome: Outcome)
    requires Kept(was, notes, flights, s, {id}) && (Retries(notes, id) ==> outcome == Retry)
    requires Rests(notes, flights, id) ==> outcome != Retry
    ensures Kept(was, notes, flights, if outcome == Retry then Marked(s, id) else s, {})
  {
    hide Retries, Rests, Caused;
  }

  // ----- The links ---------------------------------------------------------------------

  /** Heads, tail and the one pair of link fields per socket spell the FIFO and every bucket. */
  ghost predicate Tied(dirty: seq<Id>, waits: seq<seq<Id>>, links: map<Id, Link>, head: Ref, tail: Ref,
                       heads: seq<Ref>) {
    && Chained(dirty, links) && head == RefAt(dirty, 0) && tail == RefAt(dirty, |dirty| - 1)
    && Strung(waits, links, heads)
  }

  /** No two lists share a socket. */
  ghost predicate Disjoint(dirty: seq<Id>, waits: seq<seq<Id>>) {
    Separate(waits) && forall b, x :: 0 <= b < |waits| && x in waits[b] ==> x !in dirty
  }

  /** A socket on no list is without links. */
  ghost predicate Unbound(socks: map<Id, Sock>, links: map<Id, Link>) {
    forall id :: id in socks && !socks[id].queued && !socks[id].waiting ==> id in links && links[id] == LOOSE
  }

  lemma TiedAppend(dirty: seq<Id>, waits: seq<seq<Id>>, links: map<Id, Link>, head: Ref, tail: Ref, heads: seq<Ref>,
                   id: Id)
    requires Tied(dirty, waits, links, head, tail, heads) && NoDup(dirty) && id !in dirty && Disjoint(dirty, waits)
    requires forall b :: 0 <= b < |waits| ==> id !in waits[b]
    ensures Tied(dirty + [id], waits, Behind(links, id, tail), if tail.To? then head else To(id), To(id), heads)
  {
    hide Chained, Behind;
    Appended(dirty, links, id);
    forall b | 0 <= b < |waits|
      ensures Chained(waits[b], Behind(links, id, tail))
    {
      BehindElsewhere(dirty, links, id, waits[b]);
    }
  }

  lemma TiedUnlink(dirty: seq<Id>, waits: seq<seq<Id>>, links: map<Id, Link>, head: Ref, tail: Ref, heads: seq<Ref>,
                   id: Id)
    requires Tied(dirty, waits, links, head, tail, heads) && NoDup(dirty) && id in dirty && Disjoint(dirty, waits)
    ensures
      id in links &&
      var l := links[id];
      Tied(Without(dirty, id), waits, Bridged(links, id), if l.prev.To? then head else l.next,
           if l.next.To? then tail else l.prev, heads)
  {
    hide Chained, Bridged, Without;
    Unlinked(dirty, links, id);
    forall b | 0 <= b < |waits|
      ensures Chained(waits[b], Bridged(links, id))
    {
      OtherChain(dirty, links, id, waits[b]);
    }
  }

  lemma TiedWait(dirty: seq<Id>, waits: seq<seq<Id>>, links: map<Id, Link>, head: Ref, tail: Ref, heads: seq<Ref>,
                 id: Id, b: nat)
    requires Tied(dirty, waits, links, head, tail, heads) && b < |waits| && NoDup(waits[b]) && Disjoint(dirty, waits)
    requires id !in dirty && forall c :: 0 <= c < |waits| ==> id !in waits[c]
    ensures Tied(dirty, waits[b := [id] + waits[b]], InFront(links, id, heads[b]), head, tail, heads[b := To(id)])
  {
    hide Chained, InFront, Strung;
    StrungPush(waits, links, heads, id, b);
    StrungMember(waits, links, heads, b);
    InFrontElsewhere(waits[b], links, id, dirty);
  }

  lemma TiedWaitOut(dirty: seq<Id>, waits: seq<seq<Id>>, links: map<Id, Link>, head: Ref, tail: Ref, heads: seq<Ref>,
                    id: Id, b: nat)
    requires Tied(dirty, waits, links, head, tail, heads) && b < |waits| && NoDup(waits[b]) && Disjoint(dirty, waits)
    requires id in waits[b]
    ensures
      id in links &&
      Tied(dirty, waits[b := Without(waits[b], id)], Bridged(links, id), head, tail,
           if links[id].prev.To? then heads else heads[b := links[id].next])
  {
    hide Chained, Bridged, Without, Strung;
    StrungCut(waits, links, heads, id, b);
    StrungMember(waits, links, heads, b);
    OtherChain(waits[b], links, id, dirty);
  }

  lemma TailMember(dirty: seq<Id>, waits: seq<seq<Id>>, links: map<Id, Link>, head: Ref, tail: Ref, heads: seq<Ref>)
    requires Tied(dirty, waits, links, head, tail, heads)
    ensures tail.To? ==> tail.id in dirty && tail.id in links
  {
    if tail.To? { Member(dirty, links, tail.id); }
  }

  lemma HeadMember(dirty: seq<Id>, waits: seq<seq<Id>>, links: map<Id, Link>, head: Ref, tail: Ref, heads: seq<Ref>,
                   b: nat)
    requires Tied(dirty, waits, links, head, tail, heads) && b < |waits|
    ensures |heads| == |waits| && Chained(waits[b], links)
    ensures heads[b].To? ==> heads[b].id in waits[b] && heads[b].id in links
  {
    StrungMember(waits, links, heads, b);
  }

  /** Sockets on no list keep their empty links. */
  lemma StillUnbound(socks: map<Id, Sock>, was: map<Id, Link>, now: map<Id, Link>, list: seq<Id>, id: Id, s: Sock)
    requires Unbound(socks, was) && now.Keys == was.Keys && (s.queued || s.waiting || (id in now && now[id] == LOOSE))
    requires forall x :: x in now && x !in list && x != id ==> now[x] == was[x]
    requires forall x :: x in list ==> x in socks && (socks[x].queued || socks[x].waiting)
    ensures Unbound(socks[id := s], now)
  {
  }

  lemma SeatedDisjoint(socks: map<Id, Sock>, dirty: seq<Id>, waits: seq<seq<Id>>, bucket: u32 -> nat)
    requires AllSeated(socks, dirty, waits, bucket)
    ensures Disjoint(dirty, waits)
  {
    forall b, x | 0 <= b < |waits| && x in waits[b]
      ensures x !in dirty && b == bucket(socks[x].ip)
    {
      assert Seated(x, socks[x], dirty, waits, bucket);
    }
    forall b, c, x | 0 <= b < |waits| && 0 <= c < |waits| && b != c && x in waits[b]
      ensures x !in waits[c]
    {
      assert b == bucket(socks[x].ip);
    }
  }

  ghost predicate Named(socks: map<Id, Sock>, log: seq<Note>, next: nat) {
    (forall id :: id in socks ==> id < next) && forall i :: 0 <= i < |log| ==> log[i].id < next
  }

  /** How many flushes a log records. */
  ghost function Flushes(notes: seq<Note>): nat {
    if notes == [] then 0 else Flushes(notes[..|notes| - 1]) + if notes[|notes| - 1].Flushed? then 1 else 0
  }

  class TxQueue {
    const bucket: u32 -> nat
    var socks: map<Id, Sock>
    var next: nat             // names are not used again
    var links: map<Id, Link>  // dirty_prev and dirty_next, for either list
    var head: Ref
    var tail: Ref
    var heads: seq<Ref>       // arp_wait
    var depth: nat
    var exhausted: nat
    ghost var dirty: seq<Id>        // the FIFO the links spell
    ghost var waits: seq<seq<Id>>   // the buckets they spell
    ghost var log: seq<Note>

    ghost predicate Valid()
      reads this
    {
      && depth == |dirty| && NoDup(dirty) && AllDistinct(waits)
      && |waits| > 0 && (forall ip :: bucket(ip) < |waits|)
      && AllSeated(socks, dirty, waits, bucket)
      && links.Keys == socks.Keys && Tied(dirty, waits, links, head, tail, heads) && Unbound(socks, links)
      && Named(socks, log, next)
    }

    /** The schedule that the links spell. */
    ghost function Now(): Sched
      reads this
    {
      Sched(socks, next, dirty, waits)
    }

    constructor (buckets: nat, bucket: u32 -> nat)
      requires buckets > 0 && forall ip :: bucket(ip) < buckets
      ensures Valid() && socks == map[] && dirty == [] && log == [] && |waits| == buckets
      ensures this.bucket == bucket && next == 0 && exhausted == 0
    {
      this.bucket := bucket;
      links, head, tail, heads := map[], Null, Null, seq(buckets, _ => Null);
      socks, next, dirty, waits, depth, exhausted, log := map[], 0, [], seq(buckets, _ => []), 0, 0, [];
    }

    /** Only links of `list` and of `id` may change. */
    twostate predicate Local(list: seq<Id>, id: Id)
      reads this
    {
      links.Keys == old(links).Keys && forall x :: x in links && x !in list && x != id ==> links[x] == old(links)[x]
    }

    /** The link fields of `id` and of the tail, for a socket that joins the FIFO. */
    method LinkTail(id: Id)
      requires Tied(dirty, waits, links, head, tail, heads) && NoDup(dirty) && Disjoint(dirty, waits)
      requires id in links && id !in dirty && forall b :: 0 <= b < |waits| ==> id !in waits[b]
      modifies this`links, this`head, this`tail
      ensures Tied(dirty + [id], waits, links, head, tail, heads) && Local(dirty, id)
    {
      TiedAppend(dirty, waits, links, head, tail, heads, id);
      TailMember(dirty, waits, links, head, tail, heads);
      hide Tied, Disjoint, NoDup;
      links := links[id := Link(tail, Null)];
      if tail.To? {
        links := SetNext(links, tail, To(id));
      } else {
        head := To(id);
      }
      tail := To(id);
    }

    /** The link fields of its neighbours, for a socket that leaves the FIFO. */
    method CutFifo(id: Id)
      requires Tied(dirty, waits, links, head, tail, heads) && NoDup(dirty) && Disjoint(dirty, waits) && id in dirty
      modifies this`links, this`head, this`tail
      ensures Tied(Without(dirty, id), waits, links, head, tail, heads) && Local(dirty, id)
      ensures id in links && links[id] == LOOSE
    {
      TiedUnlink(dirty, waits, links, head, tail, heads, id);
      Neighbours(dirty, links, id);
      hide Tied, Disjoint, NoDup, Without;
      var l := links[id];
      if l.prev.To? {
        links := SetNext(links, l.prev, l.next);
      } else {
        head := l.next;
      }
      if l.next.To? {
        links := SetPrev(links, l.next, l.prev);
      } else {
        tail := l.prev;
      }
      links := links[id := LOOSE];
    }

    /** The link fields of `id` and of the head of a bucket, for a socket that joins it. */
    method LinkBucket(id: Id, b: nat)
      requires Tied(dirty, waits, links, head, tail, heads) && Disjoint(dirty, waits) && b < |waits| && NoDup(waits[b])
      requires id in links && id !in dirty && forall c :: 0 <= c < |waits| ==> id !in waits[c]
      modifies this`links, this`heads
      ensures Tied(dirty, waits[b := [id] + waits[b]], links, head, tail, heads) && Local(waits[b], id)
    {
      TiedWait(dirty, waits, links, head, tail, heads, id, b);
      HeadMember(dirty, waits, links, head, tail, heads, b);
      hide Tied, Disjoint, NoDup;
      var first := heads[b];
      links := links[id := Link(Null, first)];
      if first.To? {
        links := SetPrev(links, first, To(id));
      }
      heads := heads[b := To(id)];
    }

    /** The link fields of its neighbours, for a socket that leaves a bucket. */
    method CutBucket(id: Id, b: nat)
      requires Tied(dirty, waits, links, head, tail, heads) && Disjoint(dirty, waits) && b < |waits| && NoDup(waits[b])
      requires id in waits[b]
      modifies this`links, this`heads
      ensures Tied(dirty, waits[b := Without(waits[b], id)], links, head, tail, heads) && Local(waits[b], id)
      ensures id in links && links[id] == LOOSE
    {
      TiedWaitOut(dirty, waits, links, head, tail, heads, id, b);
      HeadMember(dirty, waits, links, head, tail, heads, b);
      Neighbours(waits[b], links, id);
      hide Tied, Disjoint, NoDup, Without;
      var l := links[id];
      if l.prev.To? {
        links := SetNext(links, l.prev, l.next);
      } else {
        heads := heads[b := l.next];
      }
      if l.next.To? {
        links := SetPrev(links, l.next, l.prev);
      }
      links := links[id := LOOSE];
    }

    /** dirty_fifo_append. */
    method Append(id: Id)
      requires Valid() && id in socks
      modifies this`socks, this`dirty, this`depth, this`links, this`head, this`tail
      ensures Valid()
      ensures old(socks[id].queued || socks[id].waiting) ==> socks == old(socks) && dirty == old(dirty)
      ensures !old(socks[id].queued || socks[id].waiting) ==>
                dirty == old(dirty) + [id] && socks == old(socks)[id := old(socks[id]).(queued := true)]
    {
      hide Tied, Disjoint, Unbound;
      if socks[id].queued || socks[id].waiting {
        return;
      }
      AppendFacts(dirty, id);
      SeatedDisjoint(socks, dirty, waits, bucket);
      ghost var was := links;
      LinkTail(id);
      StillUnbound(socks, was, links, dirty, id, socks[id].(queued := true));
      dirty := dirty + [id];
      socks := socks[id := socks[id].(queued := true)];
      depth := depth + 1;
    }

    /** dirty_fifo_unlink. */
    method FifoUnlink(id: Id, ghost note: Note)
      requires Valid() && id in socks && note.id == id
      modifies this`socks, this`dirty, this`depth, this`log, this`links, this`head, this`tail
      ensures Valid()
      ensures !old(socks[id].queued) ==> socks == old(socks) && dirty == old(dirty) && log == old(log)
      ensures old(socks[id].queued) ==>
                && dirty == Without(old(dirty), id) && socks == old(socks)[id := old(socks[id]).(queued := false)]
                && log == old(log) + [note]
    {
      hide Without, NoDup, Tied, Disjoint, Unbound;
      if !socks[id].queued {
        return;
      }
      WithoutFacts(dirty, id);
      WithoutSize(dirty, id);
      SeatedDisjoint(socks, dirty, waits, bucket);
      ghost var was := links;
      CutFifo(id);
      StillUnbound(socks, was, links, dirty, id, socks[id].(queued := false));
      dirty := Without(dirty, id);
      socks := socks[id := socks[id].(queued := false)];
      if depth > 0 {
        depth := depth - 1;
      }
      log := log + [note];
    }

    /** arp_wait_link: at the head of the bucket of the address. */
    method WaitLink(id: Id, ip: u32)
      requires Valid() && id in socks && !socks[id].queued && !socks[id].waiting
      modifies this`socks, this`waits, this`links, this`heads
      ensures Valid() && |waits| == |old(waits)|
      ensures socks == old(socks)[id := old(socks[id]).(waiting := true, ip := ip)]
      ensures waits == old(waits)[bucket(ip) := [id] + old(waits)[bucket(ip)]]
    {
      hide NoDup, Tied, Disjoint, Unbound;
      var b := bucket(ip);
      LinkFacts(waits[b], id);
      SeatedDisjoint(socks, dirty, waits, bucket);
      ghost var was := links;
      LinkBucket(id, b);
      StillUnbound(socks, was, links, waits[b], id, socks[id].(waiting := true, ip := ip));
      waits := waits[b := [id] + waits[b]];
      socks := socks[id := socks[id].(waiting := true, ip := ip)];
    }

    /** arp_wait_unlink. */
    method WaitUnlink(id: Id)
      requires Valid() && id in socks
      modifies this`socks, this`waits, this`links, this`heads
      ensures Valid() && |waits| == |old(waits)|
      ensures !old(socks[id].waiting) ==> socks == old(socks) && waits == old(waits)
      ensures old(socks[id].waiting) ==> socks == old(socks)[id := old(socks[id]).(waiting := false, ip := 0)]
      ensures old(socks[id].waiting) ==>
                waits == old(waits)[old(bucket(socks[id].ip)) := Without(old(waits[bucket(socks[id].ip)]), id)]
    {
      hide Without, NoDup, Tied, Disjoint, Unbound;
      if !socks[id].waiting {
        return;
      }
      var b := bucket(socks[id].ip);
      WithoutFacts(waits[b], id);
      SeatedDisjoint(socks, dirty, waits, bucket);
      ghost var was := links;
      CutBucket(id, b);
      StillUnbound(socks, was, links, waits[b], id, socks[id].(waiting := false, ip := 0));
      waits := waits[b := Without(waits[b], id)];
      socks := socks[id := socks[id].(waiting := false, ip := 0)];
    }

    lemma HeadOf(b: nat)
      requires Valid() && b < |waits|
      ensures |heads| == |waits| && heads[b] == RefAt(waits[b], 0)
    {
    }

    /** nsock_tx_mark_dirty: queued once, and not while waiting for an address. */
    method MarkDirty(id: Id)
      requires Valid()
      modifies this`socks, this`dirty, this`depth, this`links, this`head, this`tail
      ensures Valid()
      ensures id in old(socks) && !old(socks[id].queued) && !old(socks[id].waiting)
              ==> dirty == old(dirty) + [id] && socks == old(socks)[id := old(socks[id]).(queued := true)]
      ensures id !in old(socks) || old(socks[id].queued) || old(socks[id].waiting) ==>
                dirty == old(dirty) && socks == old(socks)
    {
      if id !in socks || socks[id].queued || socks[id].waiting {
        return;
      }
      Append(id);
    }

    /** nsock_tx_dirty_unlink: off both lists. */
    method Unlink(id: Id)
      requires Valid()
      modifies this`socks, this`dirty, this`depth, this`waits, this`log
      modifies this`links, this`head, this`tail, this`heads
      ensures Valid() && Now() == Freed(old(Now()), id, bucket) && log == old(log) + TookOff(old(Now()), UnlinkIt(id))
      ensures id !in old(socks) ==> Now() == old(Now())
      ensures id in old(socks) ==>
                && socks == old(socks)[id := Sock(false, false, 0, old(socks[id].flushes))]
                && dirty == Without(old(dirty), id)
                && |waits| == |old(waits)| && forall b | 0 <= b < |waits| :: waits[b] == Without(old(waits)[b], id)
    {
      hide Seated, NoDup, Without, AllSeated, AllDistinct, Tied, Unbound, Named;
      if id !in socks {
        return;
      }
      Alone(id);
      Gone(id);
      TakeOff(id);
      NotWaiting(id, socks[id].(queued := false, waiting := false, ip := 0));
      socks := socks[id := socks[id].(queued := false, waiting := false, ip := 0)];
      assert socks == old(socks)[id := socks[id]];
    }

    /** Off the list it is on is off every list. */
    lemma Gone(id: Id)
      requires Valid() && id in socks
      ensures
        var f := Freed(Now(), id, bucket);
        && f.fifo == Without(dirty, id) && |f.waits| == |waits|
        && forall b | 0 <= b < |waits| :: f.waits[b] == Without(waits[b], id)
    {
      hide NoDup, AllDistinct, Tied, Unbound, Named, Without;
      assert Seated(id, socks[id], dirty, waits, bucket);
      if !socks[id].queued { WithoutAbsent(dirty, id); }
      forall b | 0 <= b < |waits| && id !in waits[b]
        ensures Without(waits[b], id) == waits[b]
      {
        WithoutAbsent(waits[b], id);
      }
    }

    /** Off the list it is on. */
    method TakeOff(id: Id)
      requires Valid() && id in socks && !(socks[id].queued && socks[id].waiting)
      modifies this`socks, this`dirty, this`depth, this`waits, this`log
      modifies this`links, this`head, this`tail, this`heads
      ensures Valid() && id in socks && !socks[id].queued && !socks[id].waiting
      ensures log == old(log) + TookOff(old(Now()), UnlinkIt(id))
      ensures socks == old(socks)[id := Sock(false, false, socks[id].ip, old(socks[id].flushes))]
      ensures dirty == Freed(old(Now()), id, bucket).fifo && waits == Freed(old(Now()), id, bucket).waits
    {
      hide Seated, NoDup, Without, AllSeated, AllDistinct, Tied, Unbound, Named;
      if socks[id].queued {
        FifoUnlink(id, Left(id));
      }
      if socks[id].waiting {
        WaitUnlink(id);
        NameMore(Left(id));
        log := log + [Left(id)];
      }
    }

    lemma NameMore(n: Note)
      requires Valid() && n.id in socks
      ensures Named(socks, log + [n], next)
    {
    }

    lemma NotWaiting(id: Id, s: Sock)
      requires Valid() && id in socks && !socks[id].waiting && s.queued == socks[id].queued && !s.waiting
      ensures AllSeated(socks[id := s], dirty, waits, bucket) && Unbound(socks[id := s], links)
      ensures Named(socks[id := s], log, next)
    {
    }

    /** nsock_tx_arp_wait: from wherever it was to the bucket of the address. */
    method ArpWait(id: Id, ip: u32)
      requires Valid()
      modifies this`socks, this`dirty, this`depth, this`waits, this`log
      modifies this`links, this`head, this`tail, this`heads
      ensures
        && Valid() && Now() == Parked(old(Now()), id, ip, bucket)
        && log == old(log) + TookOff(old(Now()), WaitIt(id, ip))
      ensures id !in old(socks) ==> Now() == old(Now())
      ensures id in old(socks) ==>
                && socks == old(socks)[id := Sock(false, true, ip, old(socks[id].flushes))]
                && waits[bucket(ip)] == [id] + Without(old(waits)[bucket(ip)], id) && dirty == Without(old(dirty), id)
    {
      hide Seated, NoDup, Without, AllSeated, AllDistinct, Tied, Unbound, Named;
      if id !in socks {
        return;
      }
      Alone(id);
      Gone(id);
      TakeOff(id);
      WaitLink(id, ip);
    }

    lemma Alone(id: Id)
      requires Valid() && id in socks
      ensures !(socks[id].queued && socks[id].waiting)
    {
    }

    /** A socket goes away. */
    method Drop(id: Id)
      requires Valid()
      modifies this`socks, this`dirty, this`depth, this`waits, this`log
      modifies this`links, this`head, this`tail, this`heads
      ensures
        && Valid() && Now() == Did(old(Now()), DropIt(id), bucket) && log == old(log) + TookOff(old(Now()), DropIt(id))
      ensures socks == old(socks) - {id} && (id in old(socks) ==> dirty == Without(old(dirty), id))
    {
      hide AllSeated, AllDistinct, NoDup, Without, Tied, Unbound;
      Unlink(id);
      if id in socks {
        Leaves(id);
      } else {
        assert socks - {id} == socks && links - {id} == links;
      }
      socks, links := socks - {id}, links - {id};
    }

    /** A socket that no list names can come and go. */
    lemma Joins(id: Id, flushes: bool)
      requires Valid() && id !in socks
      ensures Tied(dirty, waits, links[id := LOOSE], head, tail, heads)
      ensures Unbound(socks[id := Sock(false, false, 0, flushes)], links[id := LOOSE])
    {
      var now := links[id := LOOSE];
      Untouched(dirty, links, now);
      StrungSame(waits, links, now, heads);
    }

    lemma Leaves(id: Id)
      requires Valid() && id in socks && !socks[id].queued && !socks[id].waiting
      ensures AllSeated(socks - {id}, dirty, waits, bucket)
      ensures Tied(dirty, waits, links - {id}, head, tail, heads) && Unbound(socks - {id}, links - {id})
    {
      var now := links - {id};
      assert Seated(id, socks[id], dirty, waits, bucket);
      Untouched(dirty, links, now);
      StrungSame(waits, links, now, heads);
    }

    /** A new socket, under a name that was not used before. */
    method Add(flushes: bool)
      requires Valid()
      modifies this`socks, this`links, this`next
      ensures Valid() && Now() == Did(old(Now()), AddIt(flushes), bucket)
      ensures socks == old(socks)[old(next) := Sock(false, false, 0, flushes)] && dirty == old(dirty)
    {
      Joins(next, flushes);
      links := links[next := LOOSE];
      socks := socks[next := Sock(false, false, 0, flushes)];
      next := next + 1;
    }

    /** One waiter of a bucket, woken if it waits for `ip`. */
    method Wake(id: Id, ip: u32)
      requires Valid() && id in socks && socks[id].waiting && !socks[id].queued
      modifies this`socks, this`dirty, this`depth, this`waits, this`links, this`head, this`tail, this`heads
      ensures Valid() && |waits| == |old(waits)| && socks == old(socks)[id := After(old(socks[id]), ip)]
      ensures dirty == old(dirty) + if old(socks[id].ip) == ip then [id] else []
      ensures old(socks[id].ip) != ip ==> waits == old(waits)
      ensures old(socks[id].ip) == ip ==> waits == old(waits)[bucket(ip) := Without(old(waits)[bucket(ip)], id)]
    {
      hide AllSeated, AllDistinct, NoDup, Without;
      if socks[id].ip == ip {
        WaitUnlink(id);
        Append(id);
      }
    }

    /** A walk over a bucket has come to its item `k`; the ones waiting for other addresses stay. */
    ghost predicate Walking(was: Sched, k: nat, ip: u32)
      reads this
    {
      && Valid() && bucket(ip) < |was.waits|
      && var list := was.waits[bucket(ip)];
         && k <= |list| && waits == was.waits[bucket(ip) := Others(list[..k], was.socks, ip) + list[k..]]
         && dirty == was.fifo + For(list[..k], was.socks, ip) && socks.Keys == was.socks.Keys && next == was.next
         && forall id | id in was.socks ::
              socks[id] == if id in list[..k] then After(was.socks[id], ip) else was.socks[id]
    }

    /** One turn: the next socket is looked up before this one changes lists. */
    method WakeOne(id: Id, ip: u32, ghost was: Sched, ghost k: nat) returns (next: Ref)
      requires Walking(was, k, ip)
      requires
        var list := was.waits[bucket(ip)];
        && k < |list| && id == list[k] && NoDup(list) && id in was.socks
        && was.socks[id].waiting && !was.socks[id].queued
      modifies this`socks, this`dirty, this`depth, this`waits, this`links, this`head, this`tail, this`heads
      ensures Walking(was, k + 1, ip) && next == RefAt(was.waits[bucket(ip)], k + 1)
    {
      hide AllSeated, AllDistinct, NoDup, Without, Tied, Unbound, For, Others, Named;
      ghost var list := was.waits[bucket(ip)];
      ghost var kept := Others(list[..k], was.socks, ip);
      Fresh(list, k);
      ForMore(list, k, was.socks, ip);
      OthersMore(list, k, was.socks, ip);
      OthersIn(list[..k], was.socks, ip);
      NextOf(bucket(ip), kept, list, k);
      next := links[id].next;
      Dropped(kept, list, k);
      assert waits[bucket(ip)] == kept + list[k..];
      Wake(id, ip);
      assert list[..k + 1] == list[..k] + [id];
      assert kept + [] == kept;
      assert waits[bucket(ip)] == Others(list[..k + 1], was.socks, ip) + list[k + 1..];
      assert waits == was.waits[bucket(ip) := Others(list[..k + 1], was.socks, ip) + list[k + 1..]];
    }

    /** nsock_tx_arp_resolved: wakes exactly the sockets that wait for `ip`, in bucket order. */
    method ArpResolved(ip: u32)
      requires Valid()
      modifies this`socks, this`dirty, this`depth, this`waits, this`links, this`head, this`tail, this`heads
      ensures Valid() && Now() == Resolved(old(Now()), ip, bucket) && Woken(old(socks), socks, ip)
      ensures forall id | id in old(socks) ::
                && id in socks
                && if old(socks[id].waiting && socks[id].ip == ip) then socks[id].queued && !socks[id].waiting
                   else socks[id] == old(socks[id])
    {
      hide AllSeated, AllDistinct, NoDup, Without, Tied, Unbound, Walking, RefAt, For, Others, Named;
      var b := bucket(ip);
      ghost var was, k: nat := Now(), 0;
      ghost var list := waits[b];
      Awaited(ip);
      HeadOf(b);
      var at := heads[b];
      WalkStarts(ip);
      while at.To?
        invariant Walking(was, k, ip) && at == RefAt(list, k)
        decreases |list| - k
      {
        RefIn(list, k);
        at := WakeOne(at.id, ip, was, k);
        k := k + 1;
      }
      WalkEnds(was, k, ip);
    }

    lemma WalkStarts(ip: u32)
      requires Valid()
      ensures Walking(Now(), 0, ip)
    {
      var list := waits[bucket(ip)];
      assert Others([], socks, ip) + list[0..] == list && list[..0] == [];
      assert waits[bucket(ip) := list] == waits;
    }

    lemma WalkEnds(was: Sched, k: nat, ip: u32)
      requires Walking(was, k, ip) && RefAt(was.waits[bucket(ip)], k) == Null
      requires forall id | id in was.socks && was.socks[id].waiting &&
                 was.socks[id].ip == ip :: id in was.waits[bucket(ip)]
      ensures Valid() && Now() == Resolved(was, ip, bucket) && Woken(was.socks, socks, ip)
    {
      hide AllSeated, AllDistinct, NoDup, Tied, Unbound, Named;
      var list := was.waits[bucket(ip)];
      assert list[..|list|] == list && list[|list|..] == [];
      assert Others(list, was.socks, ip) + [] == Others(list, was.socks, ip);
    }

    lemma RefIn(list: seq<Id>, k: nat)
      requires RefAt(list, k).To?
      ensures k < |list| && RefAt(list, k).id == list[k] && list[k] in list
    {
    }

    /** Where the link field of the socket at hand leads. */
    lemma NextOf(b: nat, kept: seq<Id>, list: seq<Id>, k: nat)
      requires Valid() && b < |waits| && k < |list| && waits[b] == kept + list[k..]
      ensures list[k] in links && links[list[k]].next == RefAt(list, k + 1)
    {
      assert waits[b][|kept|] == list[k];
      assert ChainedAt(waits[b], links, |kept|);
    }

    /** The bucket of an address holds exactly the sockets that wait in it. */
    lemma Awaited(ip: u32)
      requires Valid()
      ensures NoDup(waits[bucket(ip)])
      ensures forall id | id in waits[bucket(ip)] :: id in socks && socks[id].waiting && !socks[id].queued
      ensures forall id | id in socks && socks[id].waiting && socks[id].ip == ip :: id in waits[bucket(ip)]
    {
      forall id | id in waits[bucket(ip)] ensures id in socks && socks[id].waiting && !socks[id].queued {
        assert Seated(id, socks[id], dirty, waits, bucket);
      }
    }

    /** One request, on the links as on plain sequences. */
    method Act(a: Action)
      requires Valid()
      modifies this`socks, this`dirty, this`depth, this`waits, this`log, this`next
      modifies this`links, this`head, this`tail, this`heads
      ensures Valid() && Now() == Did(old(Now()), a, bucket) && log == old(log) + TookOff(old(Now()), a)
    {
      hide NoDup, Without, AllSeated, AllDistinct, Tied, Unbound, Named;
      match a {
        case MarkIt(id) => MarkDirty(id);
        case UnlinkIt(id) => Unlink(id);
        case WaitIt(id, ip) => ArpWait(id, ip);
        case ResolveIt(ip) => ArpResolved(ip);
        case DropIt(id) => Drop(id);
        case AddIt(flushes) => Add(flushes);
      }
    }

    /** Where a drain is: its turns, what it may do, and what is left of the entry queue. */
    ghost predicate Draining(was: Sched, flights: seq<Flight>, base: nat, busy: set<Id>)
      reads this
    {
      && Valid() && base <= |log| && Orderly(was.fifo, log[base..], dirty)
      && Kept(was, log[base..], flights, Now(), busy)
    }

    /** One request of the running flush. */
    method Ask(a: Action, flights: seq<Flight>, ghost was: Sched, ghost base: nat, ghost id: Id)
      requires Draining(was, flights, base, {id}) && Flushes(log[base..]) > 0
      requires a in FlightAt(flights, Flushes(log[base..]) - 1).script
      modifies this`socks, this`dirty, this`depth, this`waits, this`log, this`next
      modifies this`links, this`head, this`tail, this`heads
      ensures Draining(was, flights, base, {id}) && Now() == Did(old(Now()), a, bucket)
      ensures log == old(log) + TookOff(old(Now()), a)
      ensures Flushes(log[base..]) == old(Flushes(log[base..]))
      ensures |Remaining(was.fifo, log[base..])| <= old(|Remaining(was.fifo, log[base..])|)
      ensures Retries(log[base..], id) ==> old(Retries(log[base..], id))
      ensures Rests(log[base..], flights, id) ==> old(Rests(log[base..], flights, id))
    {
      hide Valid, Orderly, Kept, Remaining, Flushes, Retries, Rests, Did, TookOff;
      ghost var s, notes := Now(), log[base..];
      NextFree(base);
      KeptDid(was, notes, flights, s, {id}, a, bucket);
      OrderlyDid(was.fifo, notes, s, a, bucket);
      Quiet(notes, flights, s, a, id);
      Act(a);
      assert log[base..] == notes + TookOff(s, a);
    }

    lemma NextFree(base: nat)
      requires Valid() && base <= |log|
      ensures
        && next !in socks && NoDup(dirty) && (forall i :: 0 <= i < |log[base..]| ==> log[base..][i].id < next)
        && (forall id :: id in dirty <==> id in socks && socks[id].queued)
    {
    }

    /** A flush runs: any requests, any outcome. */
    method Flush(id: Id, flights: seq<Flight>, k: nat, ghost was: Sched, ghost base: nat)
      requires Draining(was, flights, base, {id}) && base <= |log| && Flushes(log[base..]) == k + 1
      modifies this`socks, this`dirty, this`depth, this`waits, this`log, this`next
      modifies this`links, this`head, this`tail, this`heads
      ensures
        && Draining(was, flights, base, {id}) && old(log) <= log
        && Now() == DidAll(old(Now()), FlightAt(flights, k).script, bucket)
        && log == old(log) + Taken(old(Now()), FlightAt(flights, k).script, bucket)
      ensures Flushes(log[base..]) == k + 1
      ensures |Remaining(was.fifo, log[base..])| <= old(|Remaining(was.fifo, log[base..])|)
      ensures Retries(log[base..], id) ==> old(Retries(log[base..], id))
      ensures Rests(log[base..], flights, id) ==> old(Rests(log[base..], flights, id))
    {
      hide Draining, Remaining, Flushes, Retries, Rests, Did, DidAll, Taken, TookOff;
      var script := FlightAt(flights, k).script;
      DidNone(Now());
      for i := 0 to |script|
        invariant
          && Draining(was, flights, base, {id}) && base <= |old(log)| && old(log) <= log
          && Flushes(log[base..]) == k + 1
          && Now() == DidAll(old(Now()), script[..i], bucket)
          && log == old(log) + Taken(old(Now()), script[..i], bucket)
        invariant |Remaining(was.fifo, log[base..])| <= old(|Remaining(was.fifo, log[base..])|)
        invariant Retries(log[base..], id) ==> old(Retries(log[base..], id))
        invariant Rests(log[base..], flights, id) ==> old(Rests(log[base..], flights, id))
      {
        DidMore(old(Now()), script, i);
        Ask(script[i], flights, was, base, id);
      }
      assert script[..|script|] == script;
    }

    lemma DidNone(s: Sched)
      ensures DidAll(s, [], bucket) == s && Taken(s, [], bucket) == []
    {
    }

    lemma DidMore(s: Sched, script: seq<Action>, i: nat)
      requires i < |script|
      ensures DidAll(s, script[..i + 1], bucket) == Did(DidAll(s, script[..i], bucket), script[i], bucket)
      ensures Taken(s, script[..i + 1], bucket) ==
              Taken(s, script[..i], bucket) + TookOff(DidAll(s, script[..i], bucket), script[i])
    {
      assert script[..i + 1][..i] == script[..i];
    }

    /** Takes the head off the FIFO and records why. */
    method Pop(ghost n: Note, flights: seq<Flight>, ghost was: Sched, ghost base: nat) returns (id: Id)
      requires Draining(was, flights, base, {}) && dirty != [] && n.id == dirty[0]
      requires if HeadFlushes(Now()) then n.Flushed? else n.Skipped?
      modifies this`socks, this`dirty, this`depth, this`log, this`links, this`head, this`tail
      ensures id == n.id && Draining(was, flights, base, if n.Flushed? then {id} else {})
      ensures Now() == Popped(old(Now())) && log == old(log) + [n] && id in socks
      ensures Flushes(log[base..]) == old(Flushes(log[base..])) + if n.Flushed? then 1 else 0
      ensures
        var r := old(|Remaining(was.fifo, log[base..])|);
        && |Remaining(was.fifo, log[base..])| <= r
        && (n.Flushed? && r > 0 ==> |Remaining(was.fifo, log[base..])| < r)
    {
      hide AllSeated, AllDistinct, NoDup, Remaining, AllInTurn, Tied, Kept, Flushes;
      HeadIs();
      id := head.id;
      ghost var s, notes := Now(), log[base..];
      Queued(id);
      Alone(id);
      KeptKinds(was, notes, flights, s, {}, id);
      KeptPop(was, notes, flights, s, n);
      OneMore(notes, n);
      FifoUnlink(id, n);
      assert log[base..] == notes + [n];
      RemainingMore(was.fifo, notes, n);
      WithoutSize(Remaining(was.fifo, notes), id);
      if n.Flushed? {
        OrderlyHead(was.fifo, notes, s.fifo, n.outcome);
      } else {
        OrderlyLess(was.fifo, notes, n, s.fifo);
      }
    }

    lemma HeadIs()
      requires Valid()
      ensures (head.To? <==> dirty != []) && (head.To? ==> head.id == dirty[0])
    {
    }

    /** A socket is on at most one list, and a waiter is in the bucket of its address. */
    lemma OneList(id: Id, b: nat)
      requires Valid() && b < |waits| && id in waits[b]
      ensures
        && id !in dirty && id in socks && b == bucket(socks[id].ip)
        && forall c | 0 <= c < |waits| && id in waits[c] :: c == b
    {
      assert Seated(id, socks[id], dirty, waits, bucket);
    }

    lemma Queued(id: Id)
      requires Valid() && id in dirty
      ensures id in socks && socks[id].queued
    {
    }

    /** One turn of the drain: the head is flushed and tried again if it asks for it, or skipped. */
    method Turn(flights: seq<Flight>, k: nat, ghost was: Sched, ghost base: nat) returns (flushed: bool)
      requires Draining(was, flights, base, {}) && dirty != [] && head == To(dirty[0]) && Flushes(log[base..]) == k
      modifies this`socks, this`dirty, this`depth, this`waits, this`log, this`next
      modifies this`links, this`head, this`tail, this`heads
      ensures Draining(was, flights, base, {}) && flushed == HeadFlushes(old(Now()))
      ensures log == old(log) + TurnTold(old(Now()), FlightAt(flights, k), bucket)
      ensures old(dirty)[0] in old(socks) && Flushes(log[base..]) == if flushed then k + 1 else k
      ensures Now() == if flushed then Turned(old(Now()), FlightAt(flights, k), bucket) else Popped(old(Now()))
      ensures
        var r := old(|Remaining(was.fifo, log[base..])|);
        && |Remaining(was.fifo, log[base..])| <= r
        && (flushed && r > 0 ==> |Remaining(was.fifo, log[base..])| < r)
    {
      hide AllSeated, AllDistinct, NoDup, Without, Tied, Unbound, Named, Remaining, Flushes, Retries, Kept, Orderly;
      hide DidAll, Rests, Taken;
      Queued(dirty[0]);
      flushed := socks[head.id].flushes;
      if flushed {
        var outcome := FlightAt(flights, k).outcome;
        var id := Pop(Flushed(dirty[0], outcome), flights, was, base);
        LastFlush(old(log[base..]), flights, Flushed(id, outcome));
        assert log[base..] == old(log[base..]) + [Flushed(id, outcome)];
        Flush(id, flights, k, was, base);
        KeptEnd(was, log[base..], flights, Now(), id, outcome);
        OrderlyMarked(was.fifo, log[base..], Now(), id);
        if outcome == Retry && id in socks && !socks[id].queued && !socks[id].waiting {
          Append(id);
        }
      } else {
        var id := Pop(Skipped(dirty[0]), flights, was, base);
      }
    }

    /** nsock_tx_dirty_drain, where the k-th flush does what `flights[k]` says. It does what
        the same drain does on plain sequences. It flushes in FIFO order, each socket queued
        at entry once before any is flushed twice; exactly sockets without a flush operation
        are skipped, a socket leaves only by request, and one to be tried again is on a list.
        With budget for the whole queue, none of it is left. */
    method Drain(budget: nat, flights: seq<Flight>) returns (flushed: nat)
      requires Valid()
      modifies this
      ensures Valid() && old(log) <= log && flushed <= budget
      ensures Now() == Drained(old(Now()), flights, 0, budget, bucket)
      ensures log == old(log) + Told(old(Now()), flights, 0, budget, bucket)
      ensures
        var notes := log[|old(log)|..];
        && Flushes(notes) == flushed && AllInTurn(old(dirty), notes) && Remaining(old(dirty), notes) <= dirty
        && Kept(old(Now()), notes, flights, Now(), {})
        && (budget >= |old(dirty)| ==> forall i | 0 <= i < |old(dirty)| :: Noted(notes, old(dirty)[i]))
      ensures flushed < budget ==> dirty == []
      ensures exhausted == old(exhausted) + if budget > 0 && flushed == budget && dirty != [] then 1 else 0
    {
      hide AllSeated, AllDistinct, NoDup, Without, AllInTurn, Remaining, Flushes, Noted, Kept, Drained, Tied, Unbound;
      hide Turned, Told, TurnTold;
      ghost var was, base := Now(), |log|;
      flushed := 0;
      assert log[base..] == [];
      NoFlush();
      RemainingNone(dirty);
      OrderlyStart(dirty);
      NamesKnown();
      KeptStart(was, flights);
      if budget == 0 {
        DrainedEnd(was, flights, 0, budget, bucket);
        EmptyQueue(was.fifo, log[base..]);
        return;
      }
      HeadIs();
      while flushed < budget && head.To?
        invariant (head.To? <==> dirty != []) && (head.To? ==> head.id == dirty[0])
        invariant
          && Draining(was, flights, base, {}) && old(log) <= log && exhausted == old(exhausted) && flushed <= budget
        invariant Drained(Now(), flights, flushed, budget, bucket) == Drained(was, flights, 0, budget, bucket)
        invariant log[base..] + Told(Now(), flights, flushed, budget, bucket) == Told(was, flights, 0, budget, bucket)
        invariant Flushes(log[base..]) == flushed
        invariant |Remaining(was.fifo, log[base..])| == 0 || |Remaining(was.fifo, log[base..])| + flushed <= |was.fifo|
        decreases budget - flushed, |dirty|
      {
        ghost var s, notes := Now(), log[base..];
        var more := Turn(flights, flushed, was, base);
        DrainedStep(s, flights, flushed, budget, bucket);
        assert log[base..] == notes + TurnTold(s, FlightAt(flights, flushed), bucket);
        if more {
          flushed := flushed + 1;
        }
        HeadIs();
      }
      DrainedEnd(Now(), flights, flushed, budget, bucket);
      if flushed == budget && head.To? {
        exhausted := exhausted + 1;
      }
      EmptyQueue(was.fifo, log[base..]);
    }

    lemma NamesKnown()
      requires Valid()
      ensures forall id :: id in socks ==> id < next
    {
    }
  }

  lemma {:induction false} DrainedEnd(s: Sched, flights: seq<Flight>, k: nat, budget: nat, bucket: u32 -> nat)
    requires k >= budget || s.fifo == []
    ensures Drained(s, flights, k, budget, bucket) == s && Told(s, flights, k, budget, bucket) == []
  {
  }

  lemma {:induction false} DrainedStep(s: Sched, flights: seq<Flight>, k: nat, budget: nat, bucket: u32 -> nat)
    requires k < budget && s.fifo != [] && s.fifo[0] in s.socks
    ensures
      Drained(s, flights, k, budget, bucket) ==
      if HeadFlushes(s) then Drained(Turned(s, FlightAt(flights, k), bucket), flights, k + 1, budget, bucket)
      else Drained(Popped(s), flights, k, budget, bucket)
    ensures
      Told(s, flights, k, budget, bucket) ==
      TurnTold(s, FlightAt(flights, k), bucket) +
      if HeadFlushes(s) then Told(Turned(s, FlightAt(flights, k), bucket), flights, k + 1, budget, bucket)
      else Told(Popped(s), flights, k, budget, bucket)
  {
  }

  lemma NoFlush()
    ensures Flushes([]) == 0
  {
  }

  lemma {:induction false} OneMore(notes: seq<Note>, n: Note)
    ensures Flushes(notes + [n]) == Flushes(notes) + if n.Flushed? then 1 else 0
  {
    assert (notes + [n])[..|notes|] == notes;
  }

  lemma {:induction false} LastFlush(notes: seq<Note>, flights: seq<Flight>, n: Note)
    requires n.Flushed?
    ensures Retries(notes + [n], n.id) <==> n.outcome == Retry
    ensures Rests(notes + [n], flights, n.id) ==> n.outcome != Retry
  {
    RetriesMore(notes, n, n.id);
    RestsMore(notes, n, flights, n.id);
  }

  lemma {:induction false} KeptKinds(was: Sched, notes: seq<Note>, flights: seq<Flight>, s: Sched, busy: set<Id>,
                                     id: Id)
    requires Kept(was, notes, flights, s, busy) && id in s.socks
    ensures id < was.next ==> id in was.socks
  {
  }

  /** A request adds no flush, and nothing that would be tried again. */
  lemma {:induction false} Quiet(notes: seq<Note>, flights: seq<Flight>, s: Sched, a: Action, id: Id)
    ensures Flushes(notes + TookOff(s, a)) == Flushes(notes)
    ensures Retries(notes + TookOff(s, a), id) ==> Retries(notes, id)
    ensures Rests(notes + TookOff(s, a), flights, id) ==> Rests(notes, flights, id)
  {
    hide Flushes, Retries, Rests;
    var off := TookOff(s, a);
    if off == [] {
      assert notes + off == notes;
    } else {
      OneMore(notes, off[0]);
      RetriesMore(notes, off[0], id);
      RestsMore(notes, off[0], flights, id);
    }
  }

  /** A request keeps the turns. */
  lemma {:induction false} OrderlyDid(q: seq<Id>, notes: seq<Note>, s: Sched, a: Action, bucket: u32 -> nat)
    requires Orderly(q, notes, s.fifo) && NoDup(s.fifo)
    requires forall id :: id in s.fifo <==> id in s.socks && s.socks[id].queued
    ensures Orderly(q, notes + TookOff(s, a), Did(s, a, bucket).fifo)
    ensures |Remaining(q, notes + TookOff(s, a))| <= |Remaining(q, notes)|
  {
    hide Remaining, AllInTurn, NoDup, Without;
    var off := TookOff(s, a);
    if off == [] {
      assert notes + off == notes;
    } else {
      OrderlyLess(q, notes, off[0], s.fifo);
      RemainingMore(q, notes, off[0]);
      WithoutSize(Remaining(q, notes), a.id);
      if !s.socks[a.id].queued {
        WithoutAbsent(s.fifo, a.id);
      }
    }
  }

  lemma {:induction false} OrderlyMarked(q: seq<Id>, notes: seq<Note>, s: Sched, id: Id)
    requires Orderly(q, notes, s.fifo)
    ensures Orderly(q, notes, Marked(s, id).fifo)
  {
  }

  /** With budget for the whole queue, every socket queued at entry that has a flush operation
      is flushed, unless a flush took it off the FIFO. */
  lemma {:induction false} AllFlushed(was: Sched, notes: seq<Note>, flights: seq<Flight>, s: Sched, id: Id)
    requires Kept(was, notes, flights, s, {}) && Noted(notes, id) && id in was.socks && was.socks[id].flushes
    requires forall k: nat :: !Asks(FlightAt(flights, k).script, id)
    ensures exists i :: 0 <= i < |notes| && notes[i].Flushed? && notes[i].id == id
  {
    hide Asks, Flushes;
    var i :| 0 <= i < |notes| && notes[i].id == id;
    assert !notes[i].Skipped?;
    if notes[i].Left? {
      assert false;
    }
  }

  lemma OrderlyStart(q: seq<Id>)
    requires NoDup(q)
    ensures Orderly(q, [], q)
  {
    RemainingNone(q);
  }

  lemma EmptyQueue(q: seq<Id>, notes: seq<Note>)
    ensures Remaining(q, notes) == [] ==> forall i | 0 <= i < |q| :: Noted(notes, q[i])
  {
    if Remaining(q, notes) == [] {
      NoneRemaining(q, notes);
    }
  }

  lemma {:induction false} WithoutSize(list: seq<Id>, id: Id)
    ensures |Without(list, id)| == if id in list then |list| - 1 else |list|
  {
    if list != [] {
      WithoutSize(list[1..], id);
      assert list == [list[0]] + list[1..];
    }
  }
}
