/** Life of a command shared by its caller, a ring, the owner's active list and
    the cancellation list (pro-stack/socket_owner.c).

    Every method is one step that other threads cannot split: it runs under the
    submission lock, or on the owner alone.  Steps of callers and of the owner
    may follow each other in any order. */
module OwnerCommands {
  import opened Lists

  datatype Kind = Create | Accept | Close | Plain

  datatype State = New | Queued | Running | Done | Cancelled

  // The lists a command can be on.  Each of the three groups stands for one reference.
  const RING := 0        // waiting in the command ring
  const CLOSE_RING := 1  // waiting in the close ring
  const ACTIVE := 2      // started by the owner
  const NOTICES := 3     // cancellation notifications
  const TAKEN := 4       // a notification the owner is handling
  const CONTROLS := 5    // released by the caller, to be reaped
  const BATCH := 6       // the control batch the owner is handling
  const DEFERRED := 7    // batch entries still in a ring
  const LISTS := 8
  const NONE := -1
  const CALLER := -2     // held by the calling thread itself

  const EAGAIN := 11
  const ENETDOWN := 100
  const ETIMEDOUT := 110
  const ECANCELED := 125

  /** `seat`: ring or active list; `notice`: cancellation list; `hold`: the caller, or
      the control list its reference went to. */
  datatype Cmd = Cmd(kind: Kind, refs: nat, state: State, done: bool, result: int, error: int,
                     cancelError: int, claimed: bool, owes: bool, seat: int, notice: int, hold: int)

  predicate Sits(c: Cmd, list: int) { c.seat == list || c.notice == list || c.hold == list }

  function One(b: bool): nat { if b then 1 else 0 }

  /** How many parties hold the command. */
  function Holders(c: Cmd): nat { One(c.seat != NONE) + One(c.notice != NONE) + One(c.hold != NONE) }

  predicate GivesSocket(c: Cmd) { c.result >= 0 && (c.kind == Create || c.kind == Accept) }

  predicate Waiting(c: Cmd) { c.seat == RING || c.seat == CLOSE_RING }

  /** One command between steps. */
  ghost predicate Sound(c: Cmd, accepting: bool) {
    && c.refs == Holders(c) > 0
    && c.seat in {NONE, RING, CLOSE_RING, ACTIVE} && c.notice in {NONE, NOTICES, TAKEN}
    && c.hold in {NONE, CALLER, CONTROLS, BATCH, DEFERRED}
    && (Waiting(c) ==> c.state == Queued) && (c.seat == ACTIVE ==> c.state != Queued && c.state != New)
    && (c.done ==> c.state == Done || c.state == Cancelled)
    && (c.state == New || c.state == Queued || c.state == Running ==> !c.done)
    && (c.notice != NONE || c.hold >= CONTROLS ==> c.state != New)
    && (c.hold == NONE || c.hold >= CONTROLS ==> !c.owes)
    && (accepting && c.seat == NONE ==> Unsubmitted(c) || (c.hold == NONE && c.done))
    && (accepting && c.hold == NONE ==> c.seat == NONE)
    && (c.owes ==> c.cancelError != 0 && c.notice == NONE) && (c.notice != NONE ==> c.cancelError != 0)
    && (c.claimed ==> c.done)
    && (c.seat == NONE && !c.done ==> c.hold == CALLER && c.notice == NONE && (c.state == New || c.state == Queued))
  }

  /** Not in a ring yet: only its caller knows it. */
  predicate Unsubmitted(c: Cmd) {
    c.hold == CALLER && c.notice == NONE && !c.owes && !c.done && (c.state == New || c.state == Queued)
  }

  ghost predicate FiledIn(list: seq<Id>, cmds: map<Id, Cmd>, i: int) {
    NoDup(list) && forall id :: id in list <==> id in cmds && Sits(cmds[id], i)
  }

  ghost predicate Filed(lists: seq<seq<Id>>, cmds: map<Id, Cmd>) {
    |lists| == LISTS && forall i :: 0 <= i < LISTS ==> FiledIn(lists[i], cmds, i)
  }

  /** `d` differs from `c` at most in being on list `i`. */
  ghost predicate Elsewhere(c: Cmd, d: Cmd, i: int) {
    forall j :: 0 <= j < LISTS && j != i ==> (Sits(d, j) <==> Sits(c, j))
  }

  lemma FiledSame(lists: seq<seq<Id>>, cmds: map<Id, Cmd>, id: Id, d: Cmd)
    requires
      && Filed(lists, cmds)
      && (if id in cmds then Elsewhere(cmds[id], d, -5) else forall j :: 0 <= j < LISTS ==> !Sits(d, j))
    ensures Filed(lists, cmds[id := d])
  {
    hide NoDup;
    forall i | 0 <= i < LISTS
      ensures FiledIn(lists[i], cmds[id := d], i)
    {
      assert FiledIn(lists[i], cmds, i);
    }
  }

  lemma FiledPush(lists: seq<seq<Id>>, cmds: map<Id, Cmd>, id: Id, d: Cmd, i: nat)
    requires
      && Filed(lists, cmds) && id in cmds && i < LISTS && !Sits(cmds[id], i) && Sits(d, i) && Elsewhere(cmds[id], d, i)
    ensures Filed(lists[i := [id] + lists[i]], cmds[id := d]) && Filed(lists[i := lists[i] + [id]], cmds[id := d])
  {
    hide NoDup;
    assert FiledIn(lists[i], cmds, i);
    LinkFacts(lists[i], id);
    AppendFacts(lists[i], id);
    var front, back := lists[i := [id] + lists[i]], lists[i := lists[i] + [id]];
    forall j | 0 <= j < LISTS
      ensures FiledIn(front[j], cmds[id := d], j) && FiledIn(back[j], cmds[id := d], j)
    {
      assert FiledIn(lists[j], cmds, j);
    }
  }

  lemma FiledDrop(lists: seq<seq<Id>>, cmds: map<Id, Cmd>, id: Id, d: Cmd, i: nat)
    requires
      && Filed(lists, cmds) && id in cmds && i < LISTS && Sits(cmds[id], i) && !Sits(d, i) && Elsewhere(cmds[id], d, i)
    ensures Filed(lists[i := Without(lists[i], id)], cmds[id := d])
  {
    hide NoDup, Without;
    assert FiledIn(lists[i], cmds, i);
    WithoutFacts(lists[i], id);
    var less := lists[i := Without(lists[i], id)];
    forall j | 0 <= j < LISTS
      ensures FiledIn(less[j], cmds[id := d], j)
    {
      assert FiledIn(lists[j], cmds, j);
    }
  }

  lemma FiledFree(lists: seq<seq<Id>>, cmds: map<Id, Cmd>, id: Id)
    requires Filed(lists, cmds) && id in cmds && forall j :: 0 <= j < LISTS ==> !Sits(cmds[id], j)
    ensures Filed(lists, cmds - {id})
  {
    hide NoDup;
    forall i | 0 <= i < LISTS
      ensures FiledIn(lists[i], cmds - {id}, i)
    {
      assert FiledIn(lists[i], cmds, i);
    }
  }

  lemma FiledFirst(lists: seq<seq<Id>>, cmds: map<Id, Cmd>, i: nat)
    requires Filed(lists, cmds) && i < LISTS && lists[i] != []
    ensures lists[i][0] in cmds && Sits(cmds[lists[i][0]], i) && Without(lists[i], lists[i][0]) == lists[i][1..]
  {
    assert FiledIn(lists[i], cmds, i);
    assert lists[i][0] in lists[i];
  }

  /** A socket made for a caller that has not taken it. */
  predicate Unclaimed(c: Cmd) {
    c.done && GivesSocket(c) && !c.claimed && c.hold != NONE
  }

  ghost predicate AllSound(cmds: map<Id, Cmd>, accepting: bool, next: Id) {
    forall id :: id in cmds ==> Sound(cmds[id], accepting) && id < next
  }

  /** While the owner accepts commands, every open socket was taken by its caller
      or still hangs on a live command. */
  ghost predicate Sockets(cmds: map<Id, Cmd>, open: set<Id>, owned: set<Id>, accepting: bool, next: Id) {
    && (forall id :: id in open ==> id < next) && (forall id :: id in owned ==> id < next)
    && (accepting ==> forall id :: id in open ==> id in owned || (id in cmds && Unclaimed(cmds[id])))
    && (forall id :: id in cmds && cmds[id].claimed && GivesSocket(cmds[id]) ==> id in owned)
    && (forall id :: id in cmds && id in owned ==> cmds[id].claimed)
  }

  /** How a command ended. */
  datatype Fate = Fate(result: int, error: int, state: State)

  ghost function FateOf(c: Cmd): Fate { Fate(c.result, c.error, c.state) }

  /** Records that outlive the commands: which ones their callers hold, how commands ended,
      and which ones were given up before submission. No name is missing from them. */
  ghost predicate Recorded(cmds: map<Id, Cmd>, held: set<Id>, results: map<Id, Fate>, dropped: set<Id>, next: Id) {
    && (forall id :: id in held <==> id in cmds && cmds[id].hold == CALLER)
    && (forall id :: id in cmds ==>
          && id !in dropped && (cmds[id].done <==> id in results)
          && (cmds[id].done ==> results[id] == FateOf(cmds[id])))
    && (forall id :: id in results ==> id < next && id !in dropped) && (forall id :: id in dropped ==> id < next)
    && (forall id: Id :: id < next ==> id in cmds || id in results || id in dropped)
  }

  /** The records after a command became `d`. */
  ghost function With(results: map<Id, Fate>, id: Id, c: Cmd, d: Cmd): map<Id, Fate> {
    if d.done && !c.done then results[id := FateOf(d)] else results
  }

  lemma RecordedOne(cmds: map<Id, Cmd>, held: set<Id>, results: map<Id, Fate>, dropped: set<Id>, next: Id, id: Id,
                    d: Cmd)
    requires Recorded(cmds, held, results, dropped, next) && id in cmds && id < next
    requires (d.hold == CALLER <==> cmds[id].hold == CALLER)
    requires cmds[id].done ==> d.done && FateOf(d) == FateOf(cmds[id])
    ensures Recorded(cmds[id := d], held, With(results, id, cmds[id], d), dropped, next)
  {
  }

  lemma RecordedLess(cmds: map<Id, Cmd>, held: set<Id>, results: map<Id, Fate>, dropped: set<Id>, next: Id, id: Id)
    requires Recorded(cmds, held, results, dropped, next) && id in cmds && cmds[id].done
    ensures Recorded(cmds - {id}, held - {id}, results, dropped, next)
  {
  }

  lemma NoRecords()
    ensures Recorded(map[], {}, map[], {}, 0)
  {
  }

  /** A new command, which its caller holds. */
  lemma RecordedNew(cmds: map<Id, Cmd>, held: set<Id>, results: map<Id, Fate>, dropped: set<Id>, next: Id, c: Cmd)
    requires Recorded(cmds, held, results, dropped, next) && next !in cmds && c.hold == CALLER && !c.done
    ensures Recorded(cmds[next := c], held + {next}, results, dropped, next + 1)
  {
  }

  lemma SoundNew(cmds: map<Id, Cmd>, open: set<Id>, owned: set<Id>, accepting: bool, next: Id, c: Cmd)
    requires AllSound(cmds, accepting, next) && Sockets(cmds, open, owned, accepting, next) && Sound(c, accepting)
    requires !c.claimed
    ensures AllSound(cmds[next := c], accepting, next + 1) && Sockets(cmds[next := c], open, owned, accepting, next + 1)
  {
    hide Sound;
    NextNew(cmds, accepting, next);
  }

  /** What is known of a run at one point. */
  datatype History = History(next: Id, live: set<Id>, held: set<Id>, results: map<Id, Fate>, dropped: set<Id>,
                             owned: set<Id>, calls: seq<CallerStep>)

  ghost predicate GivesUp(calls: seq<CallerStep>, id: Id) {
    exists i :: 0 <= i < |calls| && (calls[i] == AbandonIt(id) || (calls[i].ReleaseIt? && calls[i].id == id))
  }

  ghost predicate Claims(calls: seq<CallerStep>, id: Id) {
    exists i :: 0 <= i < |calls| && calls[i] == ReleaseIt(id, true)
  }

  /** From one point of a run to a later one: a caller keeps what it holds until it gives it up
      itself; how a command ended stays; names are not used again; only callers drop and claim. */
  ghost predicate After(a: History, b: History) {
    && a.next <= b.next && a.calls <= b.calls
    && var calls := b.calls[|a.calls|..];
       && (forall id :: id in a.held ==> id in b.held || GivesUp(calls, id))
       && (forall id :: id in b.held ==> id in a.held || id >= a.next)
       && (forall id :: id in b.live ==> id in a.live || id >= a.next)
       && (forall id :: id in a.results ==> id in b.results && b.results[id] == a.results[id])
       && a.dropped <= b.dropped && (forall id :: id in b.dropped ==> id in a.dropped || GivesUp(calls, id))
       && a.owned <= b.owned && (forall id :: id in b.owned ==> id in a.owned || Claims(calls, id))
  }

  lemma AfterRefl(a: History)
    ensures After(a, a)
  {
    assert a.calls[|a.calls|..] == [];
  }

  lemma GivesUpMore(a: seq<CallerStep>, b: seq<CallerStep>, id: Id)
    ensures GivesUp(a, id) || GivesUp(b, id) ==> GivesUp(a + b, id)
    ensures Claims(a, id) || Claims(b, id) ==> Claims(a + b, id)
  {
    var c := a + b;
    assert forall i :: 0 <= i < |a| ==> c[i] == a[i];
    assert forall i :: 0 <= i < |b| ==> c[|a| + i] == b[i];
  }

  lemma AfterTrans(a: History, b: History, c: History)
    requires After(a, b) && After(b, c)
    ensures After(a, c)
  {
    hide GivesUp, Claims;
    var x, y := b.calls[|a.calls|..], c.calls[|b.calls|..];
    assert c.calls[|a.calls|..] == x + y;
    forall id
      ensures GivesUp(x, id) || GivesUp(y, id) ==> GivesUp(x + y, id)
      ensures Claims(x, id) || Claims(y, id) ==> Claims(x + y, id)
    {
      GivesUpMore(x, y, id);
    }
  }

  /** A step of the owner: it takes nothing from callers. */
  lemma AfterOwner(a: History, b: History)
    requires b.next == a.next && b.held == a.held && b.dropped == a.dropped && b.owned == a.owned && b.calls == a.calls
    requires b.live <= a.live && forall id :: id in a.results ==> id in b.results && b.results[id] == a.results[id]
    ensures After(a, b)
  {
    assert b.calls[|a.calls|..] == [];
  }

  /** A step of a caller. */
  lemma AfterCaller(a: History, b: History, step: CallerStep)
    requires a.next <= b.next && b.calls == a.calls + [step] && b.results == a.results
    requires forall id :: id in b.held ==> id in a.held || id >= a.next
    requires forall id :: id in b.live ==> id in a.live || id >= a.next
    requires forall id :: id in a.held && id !in b.held ==>
               step == AbandonIt(id) || (step.ReleaseIt? && step.id == id)
    requires a.dropped <= b.dropped && forall id :: id in b.dropped && id !in a.dropped ==> step == AbandonIt(id)
    requires a.owned <= b.owned && forall id :: id in b.owned && id !in a.owned ==> step == ReleaseIt(id, true)
    ensures After(a, b)
  {
    assert b.calls[|a.calls|..] == [step] && [step][0] == step;
  }

  lemma NextNew(cmds: map<Id, Cmd>, accepting: bool, next: Id)
    requires AllSound(cmds, accepting, next)
    ensures next !in cmds && forall id :: id in cmds ==> id < next
  {
  }

  lemma Replaced(cmds: map<Id, Cmd>, open: set<Id>, owned: set<Id>, accepting: bool, next: Id, id: Id, d: Cmd)
    requires
      && AllSound(cmds, accepting, next) && Sockets(cmds, open, owned, accepting, next) && Sound(d, accepting)
      && id in cmds
    requires Unclaimed(cmds[id]) ==> Unclaimed(d) || id in owned
    requires d.claimed && GivesSocket(d) ==> id in owned || (cmds[id].claimed && GivesSocket(cmds[id]))
    requires cmds[id].claimed ==> d.claimed
    ensures AllSound(cmds[id := d], accepting, next) && Sockets(cmds[id := d], open, owned, accepting, next)
  {
    hide Sound;
  }

  lemma Freed(cmds: map<Id, Cmd>, open: set<Id>, owned: set<Id>, accepting: bool, next: Id, id: Id)
    requires AllSound(cmds, accepting, next) && Sockets(cmds, open, owned, accepting, next) && id in cmds
    requires accepting && Unclaimed(cmds[id]) ==> id !in open || id in owned
    ensures AllSound(cmds - {id}, accepting, next) && Sockets(cmds - {id}, open, owned, accepting, next)
  {
    hide Sound;
  }

  lemma Opens(cmds: map<Id, Cmd>, open: set<Id>, owned: set<Id>, accepting: bool, next: Id, id: Id)
    requires
      && Sockets(cmds, open, owned, accepting, next) && AllSound(cmds, accepting, next) && id in cmds
      && (accepting ==> Unclaimed(cmds[id]))
    ensures Sockets(cmds, open + {id}, owned, accepting, next)
  {
  }

  lemma SoundAt(cmds: map<Id, Cmd>, accepting: bool, next: Id, id: Id)
    requires AllSound(cmds, accepting, next) && id in cmds
    ensures Sound(cmds[id], accepting)
  {
  }

  /** Steps of calling threads. */
  datatype CallerStep =
    | CloneIt(kind: Kind)
    | SubmitIt(id: Id)
    | AbandonIt(id: Id)
    | MarkIt(id: Id, error: int)
    | NotifyIt(id: Id)
    | ObserveIt(id: Id)
    | ReleaseIt(id: Id, claim: bool)

  /** Steps of a running owner. */
  datatype OwnerStep =
    | StartIt(close: bool, expired: bool)
    | FinishIt(id: Id, result: int, error: int)
    | ExpireIt(id: Id)
    | TakeNotice
    | NoticeIt
    | TakeControl
    | ControlIt
    | PutBack

  /** A step of either side. */
  datatype Move = ByCaller(call: CallerStep) | ByOwner(work: OwnerStep)

  ghost function CallsOf(moves: seq<Move>): seq<CallerStep> {
    if moves == [] then []
    else
      var m := moves[|moves| - 1];
      CallsOf(moves[..|moves| - 1]) + if m.ByCaller? then [m.call] else []
  }

  ghost function WorksOf(moves: seq<Move>): seq<OwnerStep> {
    if moves == [] then []
    else
      var m := moves[|moves| - 1];
      WorksOf(moves[..|moves| - 1]) + if m.ByOwner? then [m.work] else []
  }

  lemma MovesMore(moves: seq<Move>, i: nat)
    requires i < |moves|
    ensures CallsOf(moves[..i + 1]) == CallsOf(moves[..i]) + if moves[i].ByCaller? then [moves[i].call] else []
    ensures WorksOf(moves[..i + 1]) == WorksOf(moves[..i]) + if moves[i].ByOwner? then [moves[i].work] else []
  {
    assert moves[..i + 1][..i] == moves[..i];
  }

  /** What callers do at the first `k` points where they may act. */
  ghost function Spoken(scripts: seq<seq<CallerStep>>, k: nat): seq<CallerStep> {
    if k == 0 then [] else Spoken(scripts, k - 1) + ScriptAt(scripts, k - 1)
  }

  function ScriptAt(scripts: seq<seq<CallerStep>>, k: nat): seq<CallerStep> {
    if k < |scripts| then scripts[k] else []
  }

  /** A command becomes `d`, and is gone when nobody holds it. */
  function Become(cmds: map<Id, Cmd>, id: Id, d: Cmd): map<Id, Cmd> {
    if Holders(d) == 0 then cmds - {id} else cmds[id := d.(refs := Holders(d))]
  }

  /** Cloned and in no ring. */
  predicate Fresh(c: Cmd) { c.seat == NONE && Unsubmitted(c) }

  class Owner {
    const capacity: nat
    var cmds: map<Id, Cmd>
    var lists: seq<seq<Id>>
    var accepting: bool
    var next: Id               // fresh name
    var open: set<Id>          // sockets made by commands and not closed
    ghost var owned: set<Id>   // sockets whose callers took them
    ghost var held: set<Id>    // commands whose callers hold a reference
    ghost var results: map<Id, Fate>  // how commands ended, also those that are gone
    ghost var dropped: set<Id>        // commands given up before submission
    ghost var calls: seq<CallerStep>  // what callers did
    ghost var works: seq<OwnerStep>   // and what the running owner did

    ghost predicate Valid()
      reads this
    {
      && Filed(lists, cmds) && AllSound(cmds, accepting, next) && Sockets(cmds, open, owned, accepting, next)
      && Recorded(cmds, held, results, dropped, next)
    }

    ghost function Past(): History
      reads this
    {
      History(next, cmds.Keys, held, results, dropped, owned, calls)
    }

    /** The run so far went on from the old state. */
    twostate predicate Settled()
      reads this
    {
      After(old(Past()), Past())
    }

    /** Nothing but list `id` stands on changed for it, and an ended command stays as it ended. */
    twostate predicate Only(id: Id, d: Cmd)
      reads this
    {
      && id in old(cmds) && cmds == Become(old(cmds), id, d)
      && results == With(old(results), id, old(cmds)[id], d)
    }

    /** Command `id` ended in this step with `result` and `error`, and is on record as such. */
    twostate predicate EndsWith(id: Id, result: int, error: int)
      reads this
    {
      && id in results && results == old(results)[id := results[id]]
      && results[id].result == result && results[id].error == error
      && results[id].state == if result < 0 && error in {ECANCELED, ETIMEDOUT} then Cancelled else Done
    }

    /** What no step of the owner touches in a command: what it asks for, whether and why it was
        cancelled, and whether its result was taken. */
    twostate predicate Carries(id: Id)
      reads this
    {
      id in old(cmds) && id in cmds ==>
        var c, d := old(cmds)[id], cmds[id];
        d.kind == c.kind && d.cancelError == c.cancelError && d.claimed == c.claimed && d.owes == c.owes
    }

    constructor (capacity: nat)
      ensures Valid() && accepting && cmds == map[] && open == {} && this.capacity == capacity
      ensures held == {} && results == map[] && dropped == {} && calls == [] && works == []
    {
      this.capacity := capacity;
      cmds, lists, accepting, next, open, owned := map[], seq(LISTS, i => []), true, 0, {}, {};
      held, results, dropped, calls, works := {}, map[], {}, [], [];
      new;
      NoRecords();
    }

    /** `command_clone`: the caller holds the only reference. */
    method Clone(kind: Kind) returns (id: Id)
      requires Valid()
      modifies this`cmds, this`next, this`held
      ensures
        && Valid() && id == old(next) && next == id + 1 && id !in old(cmds) && held == old(held) + {id}
        && cmds == old(cmds)[id := Cmd(kind, 1, New, false, 0, 0, 0, false, false, NONE, NONE, CALLER)]
    {
      hide Filed, AllSound, Sockets, Recorded;
      id := next;
      var c := Cmd(kind, 1, New, false, 0, 0, 0, false, false, NONE, NONE, CALLER);
      NextNew(cmds, accepting, next);
      FiledSame(lists, cmds, id, c);
      SoundNew(cmds, open, owned, accepting, next, c);
      RecordedNew(cmds, held, results, dropped, next, c);
      cmds := cmds[id := c];
      held := held + {id};
      next := next + 1;
    }

    /** One try of `socket_owner_call` to put a command into its ring. */
    method TryEnqueue(id: Id) returns (error: int)
      requires Valid() && id in cmds && cmds[id].seat == NONE && Unsubmitted(cmds[id])
      modifies this`cmds, this`lists
      ensures Valid() && |old(lists)| == LISTS
      ensures
        var c := old(cmds)[id];
        var ring := if c.kind == Close then CLOSE_RING else RING;
        && error == (if !accepting then ENETDOWN else if |old(lists)[ring]| >= capacity then EAGAIN else 0)
        && lists == (if error == 0 then old(lists)[ring := old(lists)[ring] + [id]] else old(lists))
        && cmds == old(cmds)[id := if error == ENETDOWN then c else if error == EAGAIN then c.(state := Queued)
                                   else c.(state := Queued, seat := ring, refs := 2)]
    {
      hide NoDup, Filed, AllSound, Sockets, Recorded;
      var c := cmds[id];
      SoundAt(cmds, accepting, next, id);
      Rings(id);
      if !accepting {
        return ENETDOWN;
      }
      var ring := RingOf(c);
      if |lists[ring]| >= capacity {
        Same(id, c.(state := Queued));
        cmds := cmds[id := c.(state := Queued)];
        return EAGAIN;
      }
      var d := c.(state := Queued, refs := c.refs + 1, seat := ring);
      FiledPush(lists, cmds, id, d, ring);
      Keeps(id, d);
      lists := lists[ring := lists[ring] + [id]];
      cmds := cmds[id := d];
      return 0;
    }

    /** The books, but for the lists, after a command changed and was not ended by it. */
    lemma Keeps(id: Id, d: Cmd)
      requires Valid() && id in cmds && Sound(d, accepting) && d.done == cmds[id].done
      requires FateOf(d) == FateOf(cmds[id]) || !d.done
      requires (d.hold == CALLER <==> cmds[id].hold == CALLER) && d.claimed == cmds[id].claimed
      requires Unclaimed(cmds[id]) ==> Unclaimed(d)
      requires GivesSocket(d) <==> GivesSocket(cmds[id])
      ensures AllSound(cmds[id := d], accepting, next) && Sockets(cmds[id := d], open, owned, accepting, next)
      ensures Recorded(cmds[id := d], held, results, dropped, next)
    {
      hide Sound, FiledIn;
      Replaced(cmds, open, owned, accepting, next, id, d);
      RecordedOne(cmds, held, results, dropped, next, id, d);
    }

    /** The same for a change that leaves it on its lists. */
    lemma Same(id: Id, d: Cmd)
      requires Valid() && id in cmds && Sound(d, accepting) && d.done == cmds[id].done
      requires FateOf(d) == FateOf(cmds[id]) || !d.done
      requires (d.hold == CALLER <==> cmds[id].hold == CALLER) && d.claimed == cmds[id].claimed
      requires Unclaimed(cmds[id]) ==> Unclaimed(d)
      requires GivesSocket(d) <==> GivesSocket(cmds[id])
      requires Elsewhere(cmds[id], d, -5)
      ensures AllSound(cmds[id := d], accepting, next) && Sockets(cmds[id := d], open, owned, accepting, next)
      ensures Recorded(cmds[id := d], held, results, dropped, next) && Filed(lists, cmds[id := d])
    {
      hide Sound, Filed;
      Keeps(id, d);
      FiledSame(lists, cmds, id, d);
    }

    lemma Rings(id: Id)
      requires Filed(lists, cmds)
      ensures |lists| == LISTS
    {
    }

    function RingOf(c: Cmd): nat { if c.kind == Close then CLOSE_RING else RING }

    /** `command_put` of a reference that was just given up: the last one frees. */
    method Put(id: Id, d: Cmd)
      requires Filed(lists, cmds) && id in cmds && d.refs == Holders(d) + 1 && Elsewhere(cmds[id], d, -5)
      requires
        && d.seat in {NONE, RING, CLOSE_RING, ACTIVE} && d.notice in {NONE, NOTICES, TAKEN}
        && d.hold in {NONE, CALLER, CONTROLS, BATCH, DEFERRED}
      modifies this`cmds
      ensures Filed(lists, cmds)
      ensures cmds == Become(old(cmds), id, d)
    {
      hide NoDup;
      if d.refs == 1 {
        FiledFree(lists, cmds, id);
        cmds := cmds - {id};
      } else {
        FiledSame(lists, cmds, id, d.(refs := d.refs - 1));
        cmds := cmds[id := d.(refs := d.refs - 1)];
      }
    }

    /** The caller gives up before any ring took the command. */
    method Abandon(id: Id)
      requires Valid() && id in cmds && cmds[id].seat == NONE && Unsubmitted(cmds[id])
      modifies this`cmds, this`held, this`dropped
      ensures Valid() && cmds == old(cmds) - {id} && held == old(held) - {id} && dropped == old(dropped) + {id}
    {
      hide NoDup, Filed, AllSound, Sockets;
      SoundAt(cmds, accepting, next, id);
      NextNew(cmds, accepting, next);
      Freed(cmds, open, owned, accepting, next, id);
      Put(id, cmds[id].(hold := NONE));
      held, dropped := held - {id}, dropped + {id};
    }

    /** The result of `socket_owner_complete`: recorded once. */
    function Completed(c: Cmd, result: int, error: int): Cmd {
      if c.done then c
      else c.(done := true, result := result, error := error,
              state := if result < 0 && (error == ECANCELED || error == ETIMEDOUT) then Cancelled else Done)
    }

    /** The owner finishes a started command; CREATE and ACCEPT make a socket. */
    method Finish(id: Id, result: int, error: int)
      requires Valid() && id in cmds && cmds[id].seat == ACTIVE
      modifies this`cmds, this`open, this`results
      ensures Valid() && cmds == old(cmds)[id := Completed(old(cmds)[id], result, error)]
      ensures if old(cmds)[id].done then results == old(results) else EndsWith(id, result, error)
      ensures cmds[id].done && Carries(id) && (old(cmds)[id].done ==> cmds == old(cmds))
      ensures
        open == old(open) + if !old(cmds)[id].done && result >= 0 && cmds[id].kind in {Create, Accept} then {id} else {}
    {
      hide NoDup, Filed, AllSound, Sockets, Recorded;
      var c := cmds[id];
      var d := Completed(c, result, error);
      SoundAt(cmds, accepting, next, id);
      Ends(id, result, error);
      if !c.done && GivesSocket(d) {
        Opens(cmds[id := d], open, owned, accepting, next, id);
        open := open + {id};
      }
      results := With(results, id, c, d);
      cmds := cmds[id := d];
    }

    /** The books after a command ended. */
    lemma Ends(id: Id, result: int, error: int)
      requires Valid() && id in cmds && cmds[id].seat == ACTIVE
      ensures
        var d := Completed(cmds[id], result, error);
        && Filed(lists, cmds[id := d]) && AllSound(cmds[id := d], accepting, next)
        && Sockets(cmds[id := d], open, owned, accepting, next)
        && Recorded(cmds[id := d], held, With(results, id, cmds[id], d), dropped, next)
    {
      hide NoDup, Filed, AllSound, Sockets, Recorded;
      var d := Completed(cmds[id], result, error);
      SoundAt(cmds, accepting, next, id);
      NextNew(cmds, accepting, next);
      FiledSame(lists, cmds, id, d);
      Replaced(cmds, open, owned, accepting, next, id, d);
      RecordedOne(cmds, held, results, dropped, next, id, d);
    }

    /** A command as it starts: it ends at once if it is cancelled or too late. */
    function Started(c: Cmd, expired: bool): Cmd {
      var on := c.(seat := ACTIVE, state := Running);
      if c.cancelError != 0 then Completed(on, -1, c.cancelError)
      else if expired then Completed(on, -1, ETIMEDOUT) else on
    }

    /** A queued command stays sound as it starts; only how it ends, if it does, is new. */
    lemma StartSound(c: Cmd, ring: nat, expired: bool)
      requires Sound(c, accepting) && Sits(c, ring) && (ring == RING || ring == CLOSE_RING)
      ensures
        var d := Started(c, expired);
        && Sound(d, accepting) && !c.done && !c.claimed && !d.claimed
        && d.seat == ACTIVE && d.notice == c.notice && d.hold == c.hold
        && d.kind == c.kind && d.cancelError == c.cancelError && d.owes == c.owes
        && (d.done <==> c.cancelError != 0 || expired) && (!d.done ==> d.state == Running)
        && (d.done ==>
              && d.result == -1 && d.error == (if c.cancelError != 0 then c.cancelError else ETIMEDOUT)
              && d.state == if d.error in {ECANCELED, ETIMEDOUT} then Cancelled else Done)
    {
    }

    lemma StartFiled(ring: nat, id: Id, d: Cmd)
      requires Filed(lists, cmds) && (ring == RING || ring == CLOSE_RING) && id in cmds && Sound(cmds[id], accepting)
      requires Sits(cmds[id], ring) && d.seat == ACTIVE && d.notice == cmds[id].notice && d.hold == cmds[id].hold
      ensures
        && |lists| == LISTS
        && Filed(lists[ring := Without(lists[ring], id)][ACTIVE := [id] + lists[ACTIVE]], cmds[id := d])
    {
      hide NoDup, Without, Filed;
      Rings(0);
      var off := cmds[id].(seat := NONE);
      FiledDrop(lists, cmds, id, off, ring);
      FiledPush(lists[ring := Without(lists[ring], id)], cmds[id := off], id, d, ACTIVE);
      Twice(cmds, id, off, d);
    }

    /** `command_start`: the ring's reference becomes the active list's.  A cancelled or
        expired command completes at once; another one runs, and may park. */
    method Start(ring: nat, expired: bool) returns (id: Id)
      requires Valid() && (ring == RING || ring == CLOSE_RING) && lists[ring] != []
      modifies this`cmds, this`lists, this`results
      ensures Valid() && id == old(lists)[ring][0] && id in old(cmds) && !old(cmds)[id].done
      ensures lists == old(lists)[ring := old(lists)[ring][1..]][ACTIVE := [id] + old(lists)[ACTIVE]]
      ensures cmds == old(cmds)[id := Started(old(cmds)[id], expired)] && Carries(id)
      ensures cmds[id].done <==> old(cmds)[id].cancelError != 0 || expired
      ensures
        var e := old(cmds)[id].cancelError;
        if e != 0 then EndsWith(id, -1, e) else if expired then EndsWith(id, -1, ETIMEDOUT)
        else cmds[id].state == Running && results == old(results)
    {
      hide NoDup, Without, Filed, AllSound, Sockets, Recorded, Sound, Started, Sits;
      Rings(0);
      FiledFirst(lists, cmds, ring);
      id := lists[ring][0];
      var c := cmds[id];
      SoundAt(cmds, accepting, next, id);
      NextNew(cmds, accepting, next);
      var d := Started(c, expired);
      StartSound(c, ring, expired);
      StartFiled(ring, id, d);
      lists := lists[ring := Without(lists[ring], id)];
      lists := lists[ACTIVE := [id] + lists[ACTIVE]];
      Replaced(cmds, open, owned, accepting, next, id, d);
      RecordedOne(cmds, held, results, dropped, next, id, d);
      results := With(results, id, c, d);
      cmds := cmds[id := d];
    }

    /** `command_cancel_local`, for the timer of a parked command or a notification. */
    method CancelLocal(id: Id, error: int)
      requires Valid() && id in cmds && cmds[id].seat == ACTIVE
      modifies this`cmds, this`results
      ensures Valid() && cmds == old(cmds)[id := Completed(old(cmds)[id], -1, error)]
      ensures if old(cmds)[id].done then results == old(results) else EndsWith(id, -1, error)
      ensures cmds[id].done && Carries(id) && (old(cmds)[id].done ==> cmds == old(cmds))
    {
      hide NoDup, Filed, AllSound, Sockets, Recorded;
      var d := Completed(cmds[id], -1, error);
      Ends(id, -1, error);
      results := With(results, id, cmds[id], d);
      cmds := cmds[id := d];
    }

    /** The first half of `socket_owner_cancel`: only the first request counts. */
    method MarkCancel(id: Id, error: int)
      requires Valid() && id in cmds && cmds[id].hold == CALLER && (cmds[id].seat != NONE || !accepting)
      modifies this`cmds
      ensures Valid()
      ensures
        var c := old(cmds)[id];
        cmds == old(cmds)[id := if c.cancelError != 0 then c
                                else c.(cancelError := if error != 0 then error else ECANCELED, owes := true)]
    {
      hide NoDup, Filed, AllSound, Sockets, Recorded;
      var c := cmds[id];
      SoundAt(cmds, accepting, next, id);
      var d := if c.cancelError != 0 then c
               else c.(cancelError := if error != 0 then error else ECANCELED, owes := true);
      Same(id, d);
      cmds := cmds[id := d];
    }

    /** The second half, under the lock: one notification and its reference. */
    method Notify(id: Id)
      requires Valid() && id in cmds && cmds[id].owes
      modifies this`cmds, this`lists
      ensures Valid() && |old(lists)| == LISTS
      ensures
        var c := old(cmds)[id];
        && cmds == old(cmds)[id := if accepting then c.(owes := false, refs := c.refs + 1, notice := NOTICES)
                                   else c.(owes := false)]
        && lists == if accepting then old(lists)[NOTICES := [id] + old(lists)[NOTICES]] else old(lists)
    {
      hide NoDup, Filed, AllSound, Sockets, Recorded;
      var c := cmds[id];
      SoundAt(cmds, accepting, next, id);
      Rings(id);
      var d := c.(owes := false);
      if accepting {
        d := d.(refs := c.refs + 1, notice := NOTICES);
        FiledPush(lists, cmds, id, d, NOTICES);
        Keeps(id, d);
        lists := lists[NOTICES := [id] + lists[NOTICES]];
      } else {
        Same(id, d);
      }
      cmds := cmds[id := d];
    }

    /** Move the first entry of one list to the front of another of the same group. */
    method Shift(from: nat, to: nat) returns (id: Id)
      requires Valid() && from < LISTS && to < LISTS && lists[from] != []
      requires Shifts(from, to)
      modifies this`cmds, this`lists
      ensures
        && Valid() && id == old(lists)[from][0]
        && lists == old(lists)[from := old(lists)[from][1..]][to := [id] + old(lists)[to]]
      ensures id in old(cmds) && cmds == old(cmds)[id := Moved(old(cmds)[id], to)]
    {
      hide NoDup, Without, Filed, AllSound, Sockets, Sound, Moved, Recorded;
      Rings(0);
      FiledFirst(lists, cmds, from);
      id := lists[from][0];
      var c := cmds[id];
      SoundAt(cmds, accepting, next, id);
      MovedSound(c, from, to, accepting);
      FiledShift(lists, cmds, from, to, id);
      Keeps(id, Moved(c, to));
      lists := lists[from := lists[from][1..]][to := [id] + lists[to]];
      cmds := cmds[id := Moved(c, to)];
    }

    /** A holder lets go: the command leaves list `i`, the last reference frees it. */
    method LetGo(i: nat, id: Id)
      requires Filed(lists, cmds) && AllSound(cmds, accepting, next) && i < LISTS && id in cmds && Sits(cmds[id], i)
      modifies this`cmds, this`lists
      ensures Filed(lists, cmds) && lists == old(lists)[i := Without(old(lists)[i], id)]
      ensures cmds == Become(old(cmds), id, Left(old(cmds)[id], i))
    {
      hide NoDup, Without, Filed, AllSound;
      Rings(0);
      SoundAt(cmds, accepting, next, id);
      var d := Left(cmds[id], i);
      LeftFacts(cmds[id], i, accepting);
      FiledDrop(lists, cmds, id, d, i);
      lists := lists[i := Without(lists[i], id)];
      Twice(cmds, id, d, d.(refs := Holders(d)));
      cmds := cmds[id := d];
      Put(id, d);
    }

    /** A command as its notification leaves it. */
    function Noticed(c: Cmd): Cmd { if c.state == Queued then c else Completed(c, -1, c.cancelError) }

    /** `command_cancellations`, one notification: a command still in a ring is left to
        `command_start`; then the notification's reference goes. */
    method HandleNotice() returns (id: Id)
      requires Valid() && accepting && lists[TAKEN] != []
      modifies this`cmds, this`lists, this`results
      ensures Valid() && lists == old(lists)[TAKEN := old(lists)[TAKEN][1..]] && id == old(lists)[TAKEN][0]
      ensures Only(id, Left(Noticed(old(cmds)[id]), TAKEN)) && (id in cmds ==> Waiting(cmds[id]) || cmds[id].done)
      ensures Carries(id)
      ensures
        var c := old(cmds)[id];
        if Waiting(c) || c.done then results == old(results) else EndsWith(id, -1, c.cancelError)
    {
      hide NoDup, Without, Filed, AllSound, Sockets, Recorded;
      Rings(0);
      FiledFirst(lists, cmds, TAKEN);
      id := lists[TAKEN][0];
      SoundAt(cmds, accepting, next, id);
      if cmds[id].state != Queued && !cmds[id].done {
        CancelLocal(id, cmds[id].cancelError);
      }
      ghost var c := cmds[id];
      SoundAt(cmds, accepting, next, id);
      Dropping(id, TAKEN);
      LetGo(TAKEN, id);
      Twice(old(cmds), id, c, Left(c, TAKEN).(refs := Holders(Left(c, TAKEN))));
    }

    /** The books after a holder other than a caller let go. */
    lemma Dropping(id: Id, i: nat)
      requires Valid() && id in cmds && i < LISTS && Sits(cmds[id], i)
      requires if accepting then i == TAKEN else i == ACTIVE || i == BATCH || i == TAKEN
      requires cmds[id].done || (Waiting(cmds[id]) && i != ACTIVE)
      ensures
        var now := Become(cmds, id, Left(cmds[id], i));
        && AllSound(now, accepting, next) && Sockets(now, open, owned, accepting, next)
        && Recorded(now, held, results, dropped, next)
    {
      hide NoDup, Filed, AllSound, Sockets, Recorded;
      var c, d := cmds[id], Left(cmds[id], i);
      SoundAt(cmds, accepting, next, id);
      NextNew(cmds, accepting, next);
      LeftFacts(c, i, accepting);
      if Holders(d) == 0 {
        Freed(cmds, open, owned, accepting, next, id);
        RecordedLess(cmds, held, results, dropped, next, id);
        NotHeld(id);
      } else {
        if accepting {
          Replaced(cmds, open, owned, accepting, next, id, d.(refs := Holders(d)));
        } else {
          LeftSound(c, i);
          Stopped(cmds, open, owned, next, id, d.(refs := Holders(d)));
        }
        RecordedOne(cmds, held, results, dropped, next, id, d.(refs := Holders(d)));
      }
    }

    lemma NotHeld(id: Id)
      requires Valid() && id in cmds && cmds[id].hold != CALLER
      ensures held - {id} == held
    {
    }

    /** `command_controls`, one entry of the batch: a command still in a ring is put off;
        any other is reaped. */
    method HandleControl() returns (id: Id)
      requires Valid() && accepting && lists[BATCH] != []
      modifies this`cmds, this`lists, this`open, this`results
      ensures
        && Valid() && id == old(lists)[BATCH][0] && id in old(cmds) && old(cmds)[id].hold == BATCH
        && |old(lists)| == LISTS
      ensures
        var c := old(cmds)[id];
        if Waiting(c) then
          && cmds == old(cmds)[id := c.(hold := DEFERRED)] && results == old(results) && open == old(open)
          && lists == old(lists)[BATCH := old(lists)[BATCH][1..]][DEFERRED := [id] + old(lists)[DEFERRED]]
        else
          && c.seat == ACTIVE && Only(id, Reaped(c)) && Disposed(id)
          && lists == old(lists)[ACTIVE := Without(old(lists)[ACTIVE], id)][BATCH := Without(old(lists)[BATCH], id)]
    {
      hide NoDup, Without, Filed, AllSound, Sockets, Sound, Recorded;
      Rings(0);
      FiledFirst(lists, cmds, BATCH);
      id := lists[BATCH][0];
      SoundAt(cmds, accepting, next, id);
      Batched(cmds[id], accepting);
      if cmds[id].state == Queued {
        var _ := Shift(BATCH, DEFERRED);
      } else {
        Reap(id);
      }
    }

    /** A command that is reaped has ended, and is off the active list and the batch. */
    function Reaped(c: Cmd): Cmd {
      Completed(c, -1, if c.cancelError != 0 then c.cancelError else ECANCELED).(seat := NONE, hold := NONE)
    }

    /** A command that had not ended was cancelled, for the reason its caller gave or without one;
        a socket that nobody took is closed. */
    twostate predicate Disposed(id: Id)
      reads this
      requires id in old(cmds)
    {
      var c := old(cmds)[id];
      && (if c.done then results == old(results)
          else EndsWith(id, -1, if c.cancelError != 0 then c.cancelError else ECANCELED))
      && open == (if c.done && c.result >= 0 && c.kind in {Create, Accept} && !c.claimed then old(open) - {id}
                  else old(open))
      && Carries(id)
    }

    /** `command_reap`: complete it, close a socket nobody took, drop the owner's reference
        and the caller's. */
    method Reap(id: Id)
      requires Valid() && accepting && id in cmds && cmds[id].hold == BATCH && cmds[id].seat == ACTIVE
      modifies this`cmds, this`lists, this`open, this`results
      ensures Valid() && Only(id, Reaped(old(cmds)[id])) && |old(lists)| == LISTS
      ensures lists == old(lists)[ACTIVE := Without(old(lists)[ACTIVE], id)][BATCH := Without(old(lists)[BATCH], id)]
      ensures Disposed(id)
      ensures id in cmds ==> cmds[id].done && cmds[id].notice != NONE
    {
      hide NoDup, Without, Filed, AllSound, Sockets, Sound, Recorded;
      Rings(0);
      if !cmds[id].done {
        CancelLocal(id, if cmds[id].cancelError != 0 then cmds[id].cancelError else ECANCELED);
      }
      var c := cmds[id];
      SoundAt(cmds, accepting, next, id);
      var e := c.(seat := NONE, hold := NONE);
      ReapFacts(c);
      Reaping(id, e.(refs := Holders(e)));
      Twice(cmds, id, e.(refs := c.refs - 1), e.(refs := Holders(e)));
      Twice(old(cmds), id, c, e.(refs := Holders(e)));
      Detach(id);
      if !c.claimed && GivesSocket(c) {
        open := open - {id};
      }
      Put(id, e.(refs := c.refs - 1));
    }

    lemma Reaping(id: Id, e: Cmd)
      requires Valid() && accepting && id in cmds && cmds[id].done && cmds[id].hold == BATCH
      requires e.hold == NONE && e.done && e.claimed == cmds[id].claimed && e.kind == cmds[id].kind
      requires FateOf(e) == FateOf(cmds[id])
      ensures
        var left := if !cmds[id].claimed && GivesSocket(cmds[id]) then open - {id} else open;
        && AllSound(cmds - {id}, accepting, next) && Sockets(cmds - {id}, left, owned, accepting, next)
        && Recorded(cmds - {id}, held, results, dropped, next)
        && (Sound(e, accepting) ==>
              && AllSound(cmds[id := e], accepting, next) && Sockets(cmds[id := e], left, owned, accepting, next)
              && Recorded(cmds[id := e], held, results, dropped, next))
    {
      hide NoDup, Filed, AllSound, Sockets, Sound, Recorded;
      var left := if !cmds[id].claimed && GivesSocket(cmds[id]) then open - {id} else open;
      NextNew(cmds, accepting, next);
      ReapedBooks(cmds, open, left, owned, next, id, e);
      RecordedLess(cmds, held, results, dropped, next, id);
      NotHeld(id);
      RecordedOne(cmds, held, results, dropped, next, id, e);
    }

    /** Leave the active list and the batch; one of the two references is dropped. */
    method Detach(id: Id)
      requires
        && Filed(lists, cmds) && id in cmds && cmds[id].done && cmds[id].seat == ACTIVE && cmds[id].hold == BATCH
        && Sound(cmds[id], true)
      modifies this`cmds, this`lists
      ensures
        && Filed(lists, cmds)
        && cmds == old(cmds)[id := old(cmds)[id].(seat := NONE, hold := NONE, refs := old(cmds)[id].refs - 1)]
        && |old(lists)| == LISTS
        && lists == old(lists)[ACTIVE := Without(old(lists)[ACTIVE], id)][BATCH := Without(old(lists)[BATCH], id)]
    {
      hide NoDup, Without, Filed, Sound;
      Rings(0);
      var c := cmds[id];
      ReapFacts(c);
      var d, e := c.(seat := NONE), c.(seat := NONE, hold := NONE, refs := c.refs - 1);
      FiledDrop(lists, cmds, id, d, ACTIVE);
      lists := lists[ACTIVE := Without(lists[ACTIVE], id)];
      FiledDrop(lists, cmds[id := d], id, e, BATCH);
      lists := lists[BATCH := Without(lists[BATCH], id)];
      Twice(cmds, id, d, e);
      cmds := cmds[id := e];
    }

    /** The caller saw the completion; it keeps the command while it holds a socket. */
    method Observe(id: Id) returns (keep: bool)
      requires Valid() && id in cmds && cmds[id].hold == CALLER && cmds[id].done
      modifies this`cmds
      ensures Valid() && keep == (old(cmds)[id].result >= 0 && old(cmds)[id].kind in {Create, Accept})
      ensures cmds == old(cmds)[id := old(cmds)[id].(claimed := old(cmds)[id].claimed || !keep)]
    {
      hide NoDup, Filed, AllSound, Sockets, Recorded;
      var c := cmds[id];
      keep := GivesSocket(c);
      var d := c.(claimed := c.claimed || !keep);
      SoundAt(cmds, accepting, next, id);
      NextNew(cmds, accepting, next);
      FiledSame(lists, cmds, id, d);
      Replaced(cmds, open, owned, accepting, next, id, d);
      RecordedOne(cmds, held, results, dropped, next, id, d);
      cmds := cmds[id := d];
    }

    /** `command_release_caller`, with or without taking the socket: the caller's reference
        goes to the control list, or is dropped when the owner has stopped. */
    method Release(id: Id, claim: bool)
      requires
        && Valid() && id in cmds && cmds[id].hold == CALLER && !cmds[id].owes
        && !(cmds[id].seat == NONE && Unsubmitted(cmds[id])) && (claim ==> cmds[id].done)
      modifies this`cmds, this`lists, this`owned, this`held
      ensures Valid() && held == old(held) - {id} && |old(lists)| == LISTS
      ensures
        var c := old(cmds)[id];
        owned == old(owned) + if claim && c.result >= 0 && c.kind in {Create, Accept} then {id} else {}
      ensures
        var c := old(cmds)[id].(claimed := old(cmds)[id].claimed || claim);
        && cmds == Become(old(cmds), id, c.(hold := if accepting then CONTROLS else NONE))
        && lists == if accepting then old(lists)[CONTROLS := [id] + old(lists)[CONTROLS]] else old(lists)
    {
      hide NoDup, Filed, AllSound, Sockets, Recorded;
      var c := cmds[id];
      SoundAt(cmds, accepting, next, id);
      NextNew(cmds, accepting, next);
      Rings(0);
      if claim {
        var d := c.(claimed := true);
        Takes(cmds, open, owned, accepting, next, id);
        FiledSame(lists, cmds, id, d);
        RecordedOne(cmds, held, results, dropped, next, id, d);
        if GivesSocket(c) {
          owned := owned + {id};
        }
        cmds := cmds[id := d];
      }
      ghost var d := cmds[id];
      HandOver(id);
      Twice(old(cmds), id, d,
            d.(hold := if accepting then CONTROLS else NONE, refs := if accepting then d.refs else d.refs - 1));
    }

    method HandOver(id: Id)
      requires
        && Valid() && id in cmds && cmds[id].hold == CALLER && !cmds[id].owes
        && !(cmds[id].seat == NONE && Unsubmitted(cmds[id]))
      modifies this`cmds, this`lists, this`held
      ensures Valid() && held == old(held) - {id} && |old(lists)| == LISTS
      ensures cmds == Become(old(cmds), id, old(cmds)[id].(hold := if accepting then CONTROLS else NONE))
      ensures lists == if accepting then old(lists)[CONTROLS := [id] + old(lists)[CONTROLS]] else old(lists)
    {
      hide NoDup, Filed, AllSound, Sockets, Recorded;
      var c := cmds[id];
      SoundAt(cmds, accepting, next, id);
      NextNew(cmds, accepting, next);
      Rings(0);
      HandsOver(id, Become(cmds, id, c.(hold := if accepting then CONTROLS else NONE)));
      if accepting {
        var d := c.(hold := CONTROLS);
        FiledPush(lists, cmds, id, d, CONTROLS);
        Replaced(cmds, open, owned, accepting, next, id, d);
        lists := lists[CONTROLS := [id] + lists[CONTROLS]];
        cmds := cmds[id := d];
      } else {
        var d := c.(hold := NONE);
        if Holders(d) == 0 {
          Freed(cmds, open, owned, accepting, next, id);
        } else {
          Stopped(cmds, open, owned, next, id, d.(refs := c.refs - 1));
        }
        Put(id, d);
      }
      held := held - {id};
    }

    lemma HandsOver(id: Id, now: map<Id, Cmd>)
      requires Recorded(cmds, held, results, dropped, next) && id in cmds
      requires (now == cmds - {id} && cmds[id].done) ||
               (id in now && now == cmds[id := now[id]] && now[id].hold != CALLER && now[id].done == cmds[id].done
                && FateOf(now[id]) == FateOf(cmds[id]))
      ensures Recorded(now, held - {id}, results, dropped, next)
    {
    }

    /** `socket_owner_shutdown_local`, the locked part: no more submissions; the control and
        cancellation lists are taken over. */
    method ShutBegin()
      requires Valid() && accepting && lists[TAKEN] == [] && lists[BATCH] == [] && lists[DEFERRED] == []
      modifies this`accepting, this`cmds, this`lists
      ensures Valid() && !accepting && lists[CONTROLS] == [] && lists[NOTICES] == [] && lists[DEFERRED] == []
      ensures AllTaken(old(cmds), cmds)
    {
      hide NoDup, Filed, AllSound, Sockets, Moved, Recorded, AllTaken;
      Rings(0);
      NoneTaken(cmds);
      Stops(cmds, open, owned, next);
      accepting := false;
      while lists[CONTROLS] != []
        invariant Valid() && |lists| == LISTS && lists[DEFERRED] == [] && !accepting
        invariant AllTaken(old(cmds), cmds)
        decreases |lists[CONTROLS]|
      {
        ghost var mid := cmds;
        TakeOver(CONTROLS, BATCH);
        TakenTrans(old(cmds), mid, cmds);
      }
      while lists[NOTICES] != []
        invariant Valid() && |lists| == LISTS && lists[DEFERRED] == [] && lists[CONTROLS] == [] && !accepting
        invariant AllTaken(old(cmds), cmds)
        decreases |lists[NOTICES]|
      {
        ghost var mid := cmds;
        TakeOver(NOTICES, TAKEN);
        TakenTrans(old(cmds), mid, cmds);
      }
    }

    /** Only the list a notification or a released command is on may have changed. */
    ghost predicate TakenOver(c: Cmd, d: Cmd) {
      && d == c.(notice := d.notice, hold := d.hold)
      && (d.notice == c.notice || (c.notice == NOTICES && d.notice == TAKEN))
      && (d.hold == c.hold || (c.hold == CONTROLS && d.hold == BATCH))
    }

    ghost predicate AllTaken(was: map<Id, Cmd>, now: map<Id, Cmd>) {
      now.Keys == was.Keys && forall id :: id in now ==> TakenOver(was[id], now[id])
    }

    lemma NoneTaken(a: map<Id, Cmd>)
      ensures AllTaken(a, a)
    {
    }

    lemma TakenTrans(a: map<Id, Cmd>, b: map<Id, Cmd>, c: map<Id, Cmd>)
      requires AllTaken(a, b) && AllTaken(b, c)
      ensures AllTaken(a, c)
    {
    }

    method TakeOver(from: nat, to: nat)
      requires Valid() && |lists| == LISTS
      requires from < LISTS && lists[from] != []
      requires (from == CONTROLS && to == BATCH) || (from == NOTICES && to == TAKEN)
      modifies this`cmds, this`lists
      ensures
        && Valid() && lists == old(lists)[from := old(lists)[from][1..]][to := [old(lists)[from][0]] + old(lists)[to]]
      ensures
        var id := old(lists)[from][0];
        id in old(cmds) && Sits(old(cmds)[id], from) && cmds == old(cmds)[id := Moved(old(cmds)[id], to)]
      ensures AllTaken(old(cmds), cmds)
    {
      hide NoDup, Filed, AllSound, Sockets, Recorded;
      FiledFirst(lists, cmds, from);
      SoundAt(cmds, accepting, next, lists[from][0]);
      var id := Shift(from, to);
    }

    /** Shutdown empties a ring: the command is cancelled and started. */
    method ShutRing(ring: nat)
      requires Valid() && !accepting && (ring == RING || ring == CLOSE_RING) && lists[ring] != []
      modifies this`cmds, this`lists, this`results
      ensures
        && Valid() && |old(lists)| == LISTS
        && lists == old(lists)[ring := old(lists)[ring][1..]][ACTIVE := [old(lists)[ring][0]] + old(lists)[ACTIVE]]
      ensures
        var id := old(lists)[ring][0];
        && id in old(cmds)
        && var c := old(cmds)[id];
           && cmds == old(cmds)[id := Started(if c.cancelError != 0 then c else c.(cancelError := ENETDOWN), false)]
           && cmds[id].done && !c.done && EndsWith(id, -1, if c.cancelError != 0 then c.cancelError else ENETDOWN)
    {
      hide NoDup, Without, Filed, AllSound, Sockets, Recorded;
      Rings(0);
      FiledFirst(lists, cmds, ring);
      var id := lists[ring][0];
      SoundAt(cmds, accepting, next, id);
      if cmds[id].cancelError == 0 {
        var d := cmds[id].(cancelError := ENETDOWN);
        Same(id, d);
        cmds := cmds[id := d];
      }
      ghost var c := cmds[id];
      var _ := Start(ring, false);
      Twice(old(cmds), id, c, cmds[id]);
    }

    /** Shutdown drops the references of the active list and of the lists it took over. */
    method ShutDrop(i: nat)
      requires Valid() && !accepting && (i == ACTIVE || i == BATCH || i == TAKEN) && lists[i] != []
      requires lists[RING] == [] && lists[CLOSE_RING] == [] && (i != ACTIVE ==> lists[ACTIVE] == [])
      modifies this`cmds, this`lists, this`results
      ensures Valid() && lists == old(lists)[i := old(lists)[i][1..]]
      ensures
        var id := old(lists)[i][0];
        && id in old(cmds)
        && var c := old(cmds)[id];
           && Only(id, Left(if i == ACTIVE then Completed(c, -1, ENETDOWN) else c, i)) && Carries(id)
           && if i == ACTIVE && !c.done then EndsWith(id, -1, ENETDOWN) else results == old(results)
    {
      hide NoDup, Without, Filed, AllSound, Sockets, Recorded;
      Rings(0);
      FiledFirst(lists, cmds, i);
      var id := lists[i][0];
      SoundAt(cmds, accepting, next, id);
      if i == ACTIVE && !cmds[id].done {
        CancelLocal(id, ENETDOWN);
        SoundAt(cmds, accepting, next, id);
      }
      if i != ACTIVE {
        OffActive(id);
      }
      ghost var c := cmds[id];
      Dropping(id, i);
      LetGo(i, id);
      Twice(old(cmds), id, c, Left(c, i).(refs := Holders(Left(c, i))));
    }

    lemma OffActive(id: Id)
      requires Valid() && id in cmds && |lists| == LISTS && (cmds[id].hold != CALLER || cmds[id].notice != NONE)
      requires lists[RING] == [] && lists[CLOSE_RING] == [] && lists[ACTIVE] == []
      ensures cmds[id].done
    {
      assert FiledIn(lists[RING], cmds, RING) && FiledIn(lists[CLOSE_RING], cmds, CLOSE_RING) &&
        FiledIn(lists[ACTIVE], cmds, ACTIVE);
      assert Sound(cmds[id], accepting);
    }

    /** Shutdown closes every socket. */
    method ShutSockets()
      requires Valid() && !accepting
      modifies this`open
      ensures Valid() && open == {}
    {
      open := {};
    }

    /** After shutdown only callers hold commands, one reference each. */
    lemma AfterShutdown(id: Id)
      requires Valid() && !accepting && (forall i :: 0 <= i < LISTS ==> lists[i] == []) && id in cmds
      ensures cmds[id].refs == 1 && cmds[id].hold == CALLER
    {
      forall i | 0 <= i < LISTS
        ensures !Sits(cmds[id], i)
      {
        assert FiledIn(lists[i], cmds, i);
      }
      assert Sound(cmds[id], accepting);
      assert !Sits(cmds[id], RING) && !Sits(cmds[id], CLOSE_RING) && !Sits(cmds[id], ACTIVE) &&
        !Sits(cmds[id], NOTICES);
      assert !Sits(cmds[id], TAKEN) && !Sits(cmds[id], CONTROLS) && !Sits(cmds[id], BATCH) && !Sits(cmds[id], DEFERRED);
    }

    twostate predicate CallerHas(id: Id) { id in old(cmds) && old(cmds)[id].hold == CALLER }

    /** What a caller's step does when its time has come. */
    twostate predicate CallerDid(step: CallerStep)
      reads this
    {
      match step
      case CloneIt(kind) =>
        cmds == old(cmds)[old(next) := Cmd(kind, 1, New, false, 0, 0, 0, false, false, NONE, NONE, CALLER)]
      case SubmitIt(id) =>
        id in old(cmds) && Fresh(old(cmds)[id]) && accepting ==>
          var ring := if old(cmds)[id].kind == Close then CLOSE_RING else RING;
          id in cmds && |old(lists)| == LISTS && (cmds[id].seat == ring <==> |old(lists)[ring]| < capacity)
      case AbandonIt(id) => id in old(cmds) && Fresh(old(cmds)[id]) ==> id !in cmds
      case MarkIt(id, error) =>
        CallerHas(id) && (old(cmds)[id].seat != NONE || !accepting) && old(cmds)[id].cancelError == 0 ==>
          id in cmds && cmds[id].cancelError == if error != 0 then error else ECANCELED
      case NotifyIt(id) =>
        id in old(cmds) && old(cmds)[id].owes && accepting ==> id in cmds && cmds[id].notice == NOTICES
      case ObserveIt(id) =>
        CallerHas(id) && old(cmds)[id].done && !GivesSocket(old(cmds)[id]) ==> id in cmds && cmds[id].claimed
      case ReleaseIt(id, claim) =>
        CallerHas(id) && !old(cmds)[id].owes && !Fresh(old(cmds)[id]) && (claim ==> old(cmds)[id].done) ==>
          id !in held && (accepting ==> id in cmds && cmds[id].hold == CONTROLS && (claim ==> cmds[id].claimed))
    }

    /** What a calling thread may do next; a step whose time has not come does nothing. */
    method CallerActs(step: CallerStep)
      requires Valid()
      modifies this`cmds, this`lists, this`next, this`owned, this`held, this`dropped, this`calls
      ensures Valid() && Settled() && calls == old(calls) + [step] && (!accepting ==> lists == old(lists))
      ensures CallerDid(step)
    {
      hide Filed, AllSound, Sockets, Recorded, After;
      NextNew(cmds, accepting, next);
      match step {
        case CloneIt(kind) => var _ := Clone(kind);
        case SubmitIt(id) => if id in cmds && Fresh(cmds[id]) { var _ := TryEnqueue(id); }
        case AbandonIt(id) => if id in cmds && Fresh(cmds[id]) { Abandon(id); }
        case MarkIt(id, error) =>
          if id in cmds && cmds[id].hold == CALLER && (cmds[id].seat != NONE || !accepting) { MarkCancel(id, error); }
        case NotifyIt(id) => if id in cmds && cmds[id].owes { Notify(id); }
        case ObserveIt(id) => if id in cmds && cmds[id].hold == CALLER && cmds[id].done { var _ := Observe(id); }
        case ReleaseIt(id, claim) =>
          if id in cmds && cmds[id].hold == CALLER && !cmds[id].owes && !Fresh(cmds[id]) && (claim ==> cmds[id].done) {
            Release(id, claim);
          }
      }
      calls := calls + [step];
      AfterCaller(old(Past()), Past(), step);
    }

    /** Callers act, whoever they are and in any order. */
    method Callers(script: seq<CallerStep>)
      requires Valid()
      modifies this`cmds, this`lists, this`next, this`owned, this`held, this`dropped, this`calls
      ensures Valid() && Settled() && (!accepting ==> lists == old(lists)) && calls == old(calls) + script
    {
      hide Valid, After, CallerDid;
      AfterRefl(Past());
      for i := 0 to |script|
        invariant Valid() && Settled() && (!accepting ==> lists == old(lists)) && calls == old(calls) + script[..i]
      {
        ghost var mid := Past();
        CallerActs(script[i]);
        AfterTrans(old(Past()), mid, Past());
        assert script[..i + 1] == script[..i] + [script[i]];
      }
      assert script[..|script|] == script;
    }

    /** A socket that its caller took and that is open stays open. */
    twostate predicate Untouched()
      reads this
    {
      forall id :: id in old(open) && id in old(owned) ==> id in open
    }

    /** The first entry of a list, if there is one, no longer counts for it. */
    twostate predicate Served(list: nat)
      reads this
    {
      list < |old(lists)| == |lists| == LISTS && old(lists)[list] != [] ==> lists[list] == old(lists)[list][1..]
    }

    /** What an owner's step does when its time has come. */
    twostate predicate OwnerDid(step: OwnerStep)
      reads this
    {
      match step
      case StartIt(close, expired) => Served(if close then CLOSE_RING else RING)
      case FinishIt(id, result, error) =>
        id in old(cmds) && old(cmds)[id].seat == ACTIVE && !old(cmds)[id].done ==> EndsWith(id, result, error)
      case ExpireIt(id) =>
        id in old(cmds) && old(cmds)[id].seat == ACTIVE && !old(cmds)[id].done ==> EndsWith(id, -1, ETIMEDOUT)
      case TakeNotice => Served(NOTICES)
      case NoticeIt => Served(TAKEN)
      case TakeControl => Served(CONTROLS)
      case ControlIt => Served(BATCH)
      case PutBack => Served(DEFERRED)
    }

    /** What the owner may do next while it runs; it takes nothing from callers. */
    method OwnerActs(step: OwnerStep)
      requires Valid() && accepting
      modifies this`cmds, this`lists, this`open, this`results, this`works
      ensures Valid() && Settled() && Untouched() && works == old(works) + [step] && OwnerDid(step)
    {
      hide Filed, AllSound, Sockets, Recorded, NoDup, After;
      if step.StartIt? || step.FinishIt? || step.ExpireIt? {
        Works(step);
      } else {
        Tidies(step);
      }
      works := works + [step];
    }

    /** Commands start, finish or expire. */
    method Works(step: OwnerStep)
      requires Valid() && accepting && (step.StartIt? || step.FinishIt? || step.ExpireIt?)
      modifies this`cmds, this`lists, this`open, this`results
      ensures Valid() && Settled() && Untouched() && OwnerDid(step)
    {
      hide Filed, AllSound, Sockets, Recorded, NoDup, After, Completed, Started;
      Rings(0);
      Unwritten();
      match step {
        case StartIt(close, expired) =>
          var ring := if close then CLOSE_RING else RING;
          if lists[ring] != [] { var _ := Start(ring, expired); }
        case FinishIt(id, result, error) => if id in cmds && cmds[id].seat == ACTIVE { Finish(id, result, error); }
        case ExpireIt(id) => if id in cmds && cmds[id].seat == ACTIVE { CancelLocal(id, ETIMEDOUT); }
      }
      AfterOwner(old(Past()), Past());
    }

    /** Notifications and released commands are handled. */
    method Tidies(step: OwnerStep)
      requires Valid() && accepting && !step.StartIt? && !step.FinishIt? && !step.ExpireIt?
      modifies this`cmds, this`lists, this`open, this`results
      ensures Valid() && Settled() && Untouched() && OwnerDid(step)
    {
      hide Filed, AllSound, Sockets, Recorded, NoDup, After, Completed;
      Rings(0);
      UnclaimedFree();
      Unwritten();
      match step {
        case TakeNotice => if lists[NOTICES] != [] { var _ := Shift(NOTICES, TAKEN); }
        case NoticeIt => if lists[TAKEN] != [] { var _ := HandleNotice(); }
        case TakeControl => if lists[CONTROLS] != [] { var _ := Shift(CONTROLS, BATCH); }
        case ControlIt => if lists[BATCH] != [] { var _ := HandleControl(); }
        case PutBack => if lists[DEFERRED] != [] { var _ := Shift(DEFERRED, CONTROLS); }
      }
      AfterOwner(old(Past()), Past());
    }

    lemma UnclaimedFree()
      requires Valid()
      ensures forall id :: id in cmds && Unclaimed(cmds[id]) ==> id !in owned
    {
    }

    /** A command that has not ended is not in the records. */
    lemma Unwritten()
      requires Valid()
      ensures forall id :: id in cmds && !cmds[id].done ==> id !in results
    {
    }

    /** Every interleaving of callers and a running owner: the books are right, no command is
        freed that its caller holds, and no command is lost before it ended or was given up. */
    method Serve(moves: seq<Move>)
      requires Valid() && accepting
      modifies this
      ensures Valid() && Settled() && accepting && Untouched()
      ensures calls == old(calls) + CallsOf(moves) && works == old(works) + WorksOf(moves)
      ensures forall id :: id in old(held) && !GivesUp(calls[|old(calls)|..], id) ==>
                id in cmds && cmds[id].hold == CALLER
    {
      hide Valid, After, CallerDid, OwnerDid;
      AfterRefl(Past());
      for i := 0 to |moves|
        invariant Valid() && Settled() && accepting && Untouched() && old(owned) <= owned
        invariant calls == old(calls) + CallsOf(moves[..i]) && works == old(works) + WorksOf(moves[..i])
      {
        ghost var mid := Past();
        MovesMore(moves, i);
        match moves[i] {
          case ByCaller(call) => CallerActs(call);
          case ByOwner(work) => OwnerActs(work);
        }
        AfterTrans(old(Past()), mid, Past());
        StillOwned(old(Past()), Past());
      }
      assert moves[..|moves|] == moves;
      StillHeld(old(Past()));
    }

    lemma StillOwned(a: History, b: History)
      requires After(a, b)
      ensures a.owned <= b.owned
    {
    }

    lemma StillHeld(was: History)
      requires Valid() && After(was, Past())
      ensures
        && |was.calls| <= |calls|
        && forall id :: id in was.held && !GivesUp(calls[|was.calls|..], id) ==> id in cmds && cmds[id].hold == CALLER
    {
    }

    /** Stopping, with the lists that callers could still add to already empty. */
    ghost predicate Stopping()
      reads this
    {
      && Valid() && !accepting && |lists| == LISTS
      && lists[CONTROLS] == [] && lists[NOTICES] == [] && lists[DEFERRED] == []
    }

    /** The lists that shutdown empties before list `i`. */
    ghost predicate Turn(i: nat)
      reads this
    {
      && |lists| == LISTS && (i > ACTIVE ==> lists[ACTIVE] == [])
      && (i >= ACTIVE ==> lists[RING] == [] && lists[CLOSE_RING] == [])
    }

    /** Callers act, then the owner takes the first command off list `i`. */
    method ShutStep(i: nat, script: seq<CallerStep>)
      requires Stopping() && i in {RING, CLOSE_RING, ACTIVE, BATCH, TAKEN} && lists[i] != [] && Turn(i)
      modifies this`cmds, this`lists, this`next, this`owned, this`held, this`dropped, this`calls, this`results
      ensures Stopping() && Settled() && |lists[i]| < |old(lists)[i]| && calls == old(calls) + script
      ensures forall j :: 0 <= j < LISTS && j != i && (j != ACTIVE || i > ACTIVE) ==> lists[j] == old(lists)[j]
    {
      hide NoDup, Filed, AllSound, Sockets, Recorded, After;
      Callers(script);
      ghost var mid := Past();
      Unwritten();
      if i == RING || i == CLOSE_RING {
        ShutRing(i);
      } else {
        ShutDrop(i);
      }
      AfterOwner(mid, Past());
      AfterTrans(old(Past()), mid, Past());
    }

    /** The owner empties list `i`. */
    method Empty(i: nat, scripts: seq<seq<CallerStep>>, k: nat, ghost before: seq<CallerStep>) returns (n: nat)
      requires calls == before + Spoken(scripts, k)
      requires Stopping() && i in {RING, CLOSE_RING, ACTIVE, BATCH, TAKEN} && Turn(i)
      modifies this`cmds, this`lists, this`next, this`owned, this`held, this`dropped, this`calls, this`results
      ensures Stopping() && Settled() && lists[i] == [] && calls == before + Spoken(scripts, n)
      ensures forall j :: 0 <= j < LISTS && j != i && (j != ACTIVE || i > ACTIVE) ==> lists[j] == old(lists)[j]
    {
      hide NoDup, Filed, AllSound, Sockets, Recorded, After;
      AfterRefl(Past());
      n := k;
      while lists[i] != []
        invariant Stopping() && Settled() && Turn(i) && calls == before + Spoken(scripts, n)
        invariant forall j :: 0 <= j < LISTS && j != i && (j != ACTIVE || i > ACTIVE) ==> lists[j] == old(lists)[j]
        decreases |lists[i]|
      {
        ghost var mid := Past();
        ShutStep(i, ScriptAt(scripts, n));
        AfterTrans(old(Past()), mid, Past());
        n := n + 1;
      }
    }

    /** `socket_owner_shutdown_local`, with callers acting between any two of its steps:
        afterwards the owner holds no command and no socket. What is left is exactly what
        callers hold, with one reference each; every other command ended, or was given up
        by its caller before submission. */
    method Shutdown(scripts: seq<seq<CallerStep>>) returns (n: nat)
      requires Valid() && accepting && lists[TAKEN] == [] && lists[BATCH] == [] && lists[DEFERRED] == []
      modifies this
      ensures Valid() && Settled() && !accepting && open == {} && calls == old(calls) + Spoken(scripts, n)
      ensures forall i :: 0 <= i < LISTS ==> |lists| == LISTS && lists[i] == []
      ensures cmds.Keys == held && forall id :: id in cmds ==> cmds[id].refs == 1 && cmds[id].hold == CALLER
      ensures forall id :: id in old(held) && !GivesUp(calls[|old(calls)|..], id) ==> id in cmds
      ensures forall id: Id :: id < next && id !in held ==> id in results || id in dropped
    {
      hide NoDup, Filed, AllSound, Sockets, Recorded, After;
      ShutBegin();
      Rings(0);
      AfterOwner(old(Past()), Past());
      var order := [CLOSE_RING, RING, ACTIVE, BATCH, TAKEN];
      n := 0;
      for k := 0 to 5
        invariant calls == old(calls) + Spoken(scripts, n)
        invariant Stopping() && Settled() && forall j :: 0 <= j < k ==> lists[order[j]] == []
      {
        assert k > 0 ==> lists[order[0]] == [];
        assert k > 1 ==> lists[order[1]] == [];
        assert k > 2 ==> lists[order[2]] == [];
        ghost var mid := Past();
        n := Empty(order[k], scripts, n, old(calls));
        AfterTrans(old(Past()), mid, Past());
      }
      assert lists[order[0]] == [] && lists[order[1]] == [] && lists[order[2]] == [] && lists[order[3]] == [] &&
        lists[order[4]] == [];
      ghost var mid := Past();
      Callers(ScriptAt(scripts, n));
      n := n + 1;
      AfterTrans(old(Past()), mid, Past());
      ShutSockets();
      forall id | id in cmds ensures cmds[id].refs == 1 && cmds[id].hold == CALLER {
        AfterShutdown(id);
      }
      AllHeld();
      StillHeld(old(Past()));
    }

    lemma AllHeld()
      requires Valid() && forall id :: id in cmds ==> cmds[id].hold == CALLER
      ensures cmds.Keys == held && forall id: Id :: id < next && id !in held ==> id in results || id in dropped
    {
    }


    /** In every reachable state the count is the number of holders, a command that is
        freed is on no list, is held by nobody and ended or was given up, and one that waits
        in a ring is neither done nor reaped. */
    lemma Counted(id: Id)
      requires Valid()
      ensures id !in cmds && id < next ==> id !in held && (id in results || id in dropped)
      ensures id in cmds ==> cmds[id].refs == Holders(cmds[id]) > 0 && (Waiting(cmds[id]) ==> !cmds[id].done)
      ensures id !in cmds ==> forall i :: 0 <= i < LISTS ==> id !in lists[i]
    {
      if id !in cmds {
        forall i | 0 <= i < LISTS
          ensures id !in lists[i]
        {
          assert FiledIn(lists[i], cmds, i);
        }
      }
    }
  }

  /** The caller takes the result. */
  lemma Takes(cmds: map<Id, Cmd>, open: set<Id>, owned: set<Id>, accepting: bool, next: Id, id: Id)
    requires AllSound(cmds, accepting, next) && Sockets(cmds, open, owned, accepting, next) && id in cmds
    requires cmds[id].done
    ensures
      var d := cmds[id].(claimed := true);
      && AllSound(cmds[id := d], accepting, next)
      && Sockets(cmds[id := d], open, if GivesSocket(d) then owned + {id} else owned, accepting, next)
  {
    hide Sound;
    SoundAt(cmds, accepting, next, id);
    ClaimedSound(cmds[id], accepting);
  }

  lemma ClaimedSound(c: Cmd, accepting: bool)
    requires Sound(c, accepting) && c.done
    ensures Sound(c.(claimed := true), accepting)
  {
  }

  lemma Stops(cmds: map<Id, Cmd>, open: set<Id>, owned: set<Id>, next: Id)
    requires AllSound(cmds, true, next) && Sockets(cmds, open, owned, true, next)
    ensures AllSound(cmds, false, next) && Sockets(cmds, open, owned, false, next)
  {
  }

  lemma Stopped(cmds: map<Id, Cmd>, open: set<Id>, owned: set<Id>, next: Id, id: Id, d: Cmd)
    requires AllSound(cmds, false, next) && Sockets(cmds, open, owned, false, next) && Sound(d, false) && id in cmds
    requires d.claimed && GivesSocket(d) ==> cmds[id].claimed && GivesSocket(cmds[id])
    requires d.claimed == cmds[id].claimed
    ensures AllSound(cmds[id := d], false, next) && Sockets(cmds[id := d], open, owned, false, next)
  {
    hide Sound;
  }

  lemma LeftSound(c: Cmd, i: nat)
    requires Sound(c, false) && (i == ACTIVE || i == BATCH || i == TAKEN) && Sits(c, i) && Holders(Left(c, i)) > 0
    requires c.done || (Waiting(c) && i != ACTIVE)
    ensures Sound(Left(c, i).(refs := Holders(Left(c, i))), false)
  {
  }

  lemma ReapFacts(c: Cmd)
    requires Sound(c, true) && c.seat == ACTIVE && c.hold == BATCH && c.done
    ensures
      var d, e := c.(seat := NONE), c.(seat := NONE, hold := NONE);
      && Sits(c, ACTIVE) && !Sits(d, ACTIVE) && Elsewhere(c, d, ACTIVE) && Sits(d, BATCH) && !Sits(e, BATCH)
      && Elsewhere(d, e, BATCH)
      && Elsewhere(d, e.(refs := c.refs - 1), BATCH) && !Sits(e.(refs := c.refs - 1), BATCH)
      && c.refs == Holders(e) + 2 && c.refs >= 2
      && (Holders(e) > 0 ==> e.notice != NONE && Sound(e.(refs := Holders(e)), true))
      && e.notice in {NONE, NOTICES, TAKEN}
  {
  }

  lemma ReapedBooks(cmds: map<Id, Cmd>, was: set<Id>, open: set<Id>, owned: set<Id>, next: Id, id: Id, e: Cmd)
    requires AllSound(cmds, true, next) && Sockets(cmds, was, owned, true, next) && id in cmds && cmds[id].done
    requires open == if !cmds[id].claimed && GivesSocket(cmds[id]) then was - {id} else was
    requires e.hold == NONE && e.claimed == cmds[id].claimed && (GivesSocket(e) <==> GivesSocket(cmds[id]))
    ensures AllSound(cmds - {id}, true, next) && Sockets(cmds - {id}, open, owned, true, next)
    ensures Sound(e, true) ==> AllSound(cmds[id := e], true, next) && Sockets(cmds[id := e], open, owned, true, next)
  {
    hide Sound;
    forall x | x in open + owned
      ensures x < next && (x in open ==> x in owned || (x != id && x in cmds && Unclaimed(cmds[x])))
    {
      assert x in was + owned;
    }
  }

  lemma Batched(c: Cmd, accepting: bool)
    requires Sound(c, accepting) && accepting && c.hold == BATCH
    ensures c.state == Queued <==> Waiting(c)
    ensures !Waiting(c) ==> c.seat == ACTIVE
  {
  }

  /** `c` after it left list `i`; its count is adjusted by `command_put`. */
  function Left(c: Cmd, i: int): Cmd {
    if i <= ACTIVE then c.(seat := NONE) else if i <= TAKEN then c.(notice := NONE) else c.(hold := NONE)
  }

  lemma Twice(cmds: map<Id, Cmd>, id: Id, d: Cmd, e: Cmd)
    ensures cmds[id := d] - {id} == cmds - {id} && cmds[id := d][id := e] == cmds[id := e]
  {
  }

  lemma LeftFacts(c: Cmd, i: nat, accepting: bool)
    requires Sound(c, accepting) && i < LISTS && Sits(c, i)
    ensures
      var d := Left(c, i);
      !Sits(d, i) && Elsewhere(c, d, i) && d.refs == Holders(d) + 1
  {
  }

  ghost predicate Shifts(from: int, to: int) {
    || (from == NOTICES && to == TAKEN) || (from == CONTROLS && to == BATCH)
    || (from == BATCH && to == DEFERRED) || (from == DEFERRED && to == CONTROLS)
  }

  function Moved(c: Cmd, to: int): Cmd { if to == TAKEN then c.(notice := to) else c.(hold := to) }

  lemma MovedSound(c: Cmd, from: int, to: int, accepting: bool)
    requires Sound(c, accepting) && Sits(c, from) && Shifts(from, to)
    ensures
      var d := Moved(c, to);
      && Sound(d, accepting) && (Unclaimed(c) ==> Unclaimed(d)) && d.done == c.done && d.result == c.result
      && d.error == c.error && d.state == c.state && d.claimed == c.claimed && d.kind == c.kind
      && !Sits(c, to) && Sits(d, to) && !Sits(d, from) && (d.hold == CALLER <==> c.hold == CALLER)
      && forall j :: 0 <= j < LISTS && j != from && j != to ==> (Sits(d, j) <==> Sits(c, j))
  {
  }

  lemma FiledShift(lists: seq<seq<Id>>, cmds: map<Id, Cmd>, from: nat, to: nat, id: Id)
    requires
      && Filed(lists, cmds) && from < LISTS && to < LISTS && from != to && lists[from] != [] && id == lists[from][0]
      && id in cmds
    requires
      var c, d := cmds[id], Moved(cmds[id], to);
      && !Sits(c, to) && Sits(d, to) && !Sits(d, from)
      && forall j :: 0 <= j < LISTS && j != from && j != to ==> (Sits(d, j) <==> Sits(c, j))
    ensures Filed(lists[from := lists[from][1..]][to := [id] + lists[to]], cmds[id := Moved(cmds[id], to)])
  {
    hide NoDup, Without, Sits, Moved;
    var l, e := lists[from := lists[from][1..]][to := [id] + lists[to]], cmds[id := Moved(cmds[id], to)];
    FiledFirst(lists, cmds, from);
    assert FiledIn(lists[from], cmds, from) && FiledIn(lists[to], cmds, to);
    WithoutFacts(lists[from], id);
    LinkFacts(lists[to], id);
    forall j | 0 <= j < LISTS
      ensures FiledIn(l[j], e, j)
    {
      assert FiledIn(lists[j], cmds, j);
    }
  }
}
