/** The hierarchical timing wheel of one owner (pro-stack/owner_timer.c) and what
    a poll fires. */
module TimerWheel {
  import opened WheelMath
  import opened Lists
  import opened Links

  const IMMEDIATE := 2048  // queue of timers that were due when armed
  const READY := 2049      // what the running poll will fire
  const PLACES := 2050
  const NOWHERE := -1
  const WORDS := 32

  /** An armed timer: when, on which tick, and in which list it is linked. */
  datatype Entry = Entry(deadline: nat, tick: nat, place: int)

  /** Each list holds exactly the timers that say so, once. */
  ghost predicate FiledAt(list: seq<Id>, entries: map<Id, Entry>, place: int) {
    NoDup(list) && forall id :: id in list <==> id in entries && entries[id].place == place
  }

  ghost predicate Filed(lists: seq<seq<Id>>, entries: map<Id, Entry>) {
    && |lists| == PLACES && (forall i :: 0 <= i < PLACES ==> FiledAt(lists[i], entries, i))
    && forall id :: id in entries ==> NOWHERE <= entries[id].place < PLACES
  }

  /** The bitmap shows which buckets are in use. */
  ghost predicate MarkedAt(lists: seq<seq<Id>>, occupied: seq<set<int>>, b: nat)
    requires |lists| == PLACES && |occupied| == WORDS && b < BUCKETS
  {
    b % 64 in occupied[b / 64] <==> lists[b] != []
  }

  ghost predicate Marked(lists: seq<seq<Id>>, occupied: seq<set<int>>) {
    && |lists| == PLACES && |occupied| == WORDS
    && (forall b :: 0 <= b < BUCKETS ==> MarkedAt(lists, occupied, b))
    && forall w, x :: 0 <= w < WORDS && x in occupied[w] ==> 0 <= x < 64
  }

  /** Every timer in a bucket, except `open`, is where its tick puts it. */
  ghost predicate Timely(entries: map<Id, Entry>, cursor: nat, open: int) {
    forall id :: id in entries && 0 <= entries[id].place < BUCKETS && entries[id].place != open ==>
      Placed(entries[id].tick, cursor, entries[id].place / 256, entries[id].place % 256)
  }

  /** Timers in the open bucket are due at the cursor or belong on a lower level. */
  ghost predicate AtEdge(entries: map<Id, Entry>, cursor: nat, open: int) {
    0 <= open < BUCKETS ==> forall id :: id in entries && entries[id].place == open ==>
      cursor <= entries[id].tick && High(entries[id].tick, open / 256) == High(cursor, open / 256)
  }

  /** No bucket in use begins before the cached tick. */
  ghost predicate Cached(lists: seq<seq<Id>>, cursor: nat, nextTick: nat) {
    && |lists| == PLACES
    && forall b :: 0 <= b < BUCKETS && lists[b] != [] ==> nextTick <= Boundary(cursor, b / 256, b % 256)
  }

  /** What an owner does over time: a request from outside a callback, or a poll
      whose callbacks make the given requests. */
  datatype Step = Request(action: Action) | PollNow(scripts: seq<seq<Action>>)

  datatype Action = ArmIt(id: Id, deadline: nat) | CancelIt(id: Id) | Sleep(cycles: nat)

  /** What happened to timers: one fired, was armed, or was cancelled. */
  datatype Note = Fired(id: Id) | Armed(id: Id, deadline: nat) | Cancelled(id: Id)

  /** The wheel as a plain set of deadlines. */
  ghost function Deadlines(entries: map<Id, Entry>): map<Id, nat> {
    map id | id in entries :: entries[id].deadline
  }

  /** What a note does to the set of deadlines. */
  ghost function Noted(d: map<Id, nat>, n: Note): map<Id, nat> {
    if n.Armed? then d[n.id := n.deadline] else d - {n.id}
  }

  ghost function Replay(d: map<Id, nat>, notes: seq<Note>): map<Id, nat> {
    if notes == [] then d else Noted(Replay(d, notes[..|notes| - 1]), notes[|notes| - 1])
  }

  /** What a request does when `d` is armed and at most `capacity` timers may be. */
  ghost function Acted(a: Action, d: map<Id, nat>, capacity: nat): seq<Note> {
    match a
    case ArmIt(id, deadline) => if id !in d && |d| >= capacity then [] else [Armed(id, Min64(deadline))]
    case CancelIt(id) => if id in d then [Cancelled(id)] else []
    case Sleep(_) => []
  }

  /** What the requests of one callback do. */
  ghost function Ran(script: seq<Action>, d: map<Id, nat>, capacity: nat): seq<Note> {
    if script == [] then []
    else
      var notes := Ran(script[..|script| - 1], d, capacity);
      notes + Acted(script[|script| - 1], Replay(d, notes), capacity)
  }

  /** The requests of the `k`-th callback of a poll. */
  function ScriptAt(scripts: seq<seq<Action>>, k: nat): seq<Action> {
    if k < |scripts| then scripts[k] else []
  }

  /** A poll on a plain set of deadlines: timers fire in this order, and each
      callback's requests take effect before the next timer fires. */
  ghost function Told(d: map<Id, nat>, order: seq<Id>, scripts: seq<seq<Action>>, capacity: nat): seq<Note> {
    if order == [] then []
    else
      var k := |order| - 1;
      var notes := Told(d, order[..k], scripts, capacity) + [Fired(order[k])];
      notes + Ran(ScriptAt(scripts, k), Replay(d, notes), capacity)
  }

  lemma {:induction false} ReplayMore(d: map<Id, nat>, a: seq<Note>, b: seq<Note>)
    ensures Replay(d, a + b) == Replay(Replay(d, a), b)
    decreases |b|
  {
    if b == [] {
      assert a + b == a;
    } else {
      var k := |b| - 1;
      ReplayMore(d, a, b[..k]);
      assert (a + b)[..|a + b| - 1] == a + b[..k];
    }
  }

  /** A timer no note mentions keeps its deadline, or stays unarmed. */
  lemma {:induction false} Unmentioned(d: map<Id, nat>, notes: seq<Note>, id: Id)
    requires !Mentions(notes, id)
    ensures id in Replay(d, notes) <==> id in d
    ensures id in d ==> Replay(d, notes)[id] == d[id]
  {
    if notes != [] {
      var k := |notes| - 1;
      assert notes[k].id != id;
      assert forall i :: 0 <= i < k ==> notes[..k][i] == notes[i];
      Unmentioned(d, notes[..k], id);
    }
  }

  /** The notes of a run, step after step. */
  ghost function Joined(parts: seq<seq<Note>>): seq<Note> {
    if parts == [] then [] else Joined(parts[..|parts| - 1]) + parts[|parts| - 1]
  }

  lemma ToldNone(d: map<Id, nat>, scripts: seq<seq<Action>>, capacity: nat)
    ensures Told(d, [], scripts, capacity) == [] && Replay(d, []) == d
  {
  }

  lemma ReplayOne(d: map<Id, nat>, notes: seq<Note>, n: Note)
    ensures Replay(d, notes + [n]) == Noted(Replay(d, notes), n)
  {
    assert (notes + [n])[..|notes|] == notes;
  }

  lemma ToldFired(d: map<Id, nat>, order: seq<Id>, id: Id, scripts: seq<seq<Action>>, capacity: nat)
    ensures
      var notes := Told(d, order, scripts, capacity) + [Fired(id)];
      && Replay(d, notes) == Replay(d, Told(d, order, scripts, capacity)) - {id}
      && Told(d, order + [id], scripts, capacity)
         == notes + Ran(ScriptAt(scripts, |order|), Replay(d, notes), capacity)
  {
    hide Replay, Ran;
    ReplayOne(d, Told(d, order, scripts, capacity), Fired(id));
    var more := order + [id];
    assert more[..|order|] == order && more[|order|] == id;
  }

  lemma ActedNotes(a: Action, d: map<Id, nat>, capacity: nat)
    ensures |Acted(a, d, capacity)| <= 1
    ensures Acted(a, d, capacity) == [] ==> Replay(d, Acted(a, d, capacity)) == d
    ensures Acted(a, d, capacity) != [] ==> Replay(d, Acted(a, d, capacity)) == Noted(d, Acted(a, d, capacity)[0])
  {
    var notes := Acted(a, d, capacity);
    if notes != [] {
      assert notes[..0] == [];
    }
  }

  lemma DeadlinesLess(e: map<Id, Entry>, id: Id)
    ensures Deadlines(e - {id}) == Deadlines(e) - {id}
  {
  }

  lemma ArmedIn(e: map<Id, Entry>, id: Id)
    ensures id in Deadlines(e) <==> id in e
    ensures |Deadlines(e)| == |e|
  {
    assert Deadlines(e).Keys == e.Keys;
  }

  lemma DeadlinesMore(e: map<Id, Entry>, id: Id, x: Entry)
    ensures Deadlines(e[id := x]) == Deadlines(e)[id := x.deadline]
  {
  }

  ghost predicate Mentions(log: seq<Note>, id: Id) {
    exists i :: 0 <= i < |log| && log[i].id == id
  }

  /** The timer fired before anything else happened to it. */
  ghost predicate FiresFirst(log: seq<Note>, id: Id) {
    exists i :: 0 <= i < |log| && log[i] == Fired(id) && !Mentions(log[..i], id)
  }

  ghost predicate Fires(log: seq<Note>, id: Id) {
    exists i :: 0 <= i < |log| && log[i] == Fired(id)
  }

  /** A timer a poll has to fire: queued as due, or its tick is reached. */
  ghost predicate Due(e: Entry, target: nat) {
    e.place == IMMEDIATE || e.tick <= target
  }

  ghost function DueSet(entries: map<Id, Entry>, target: nat): set<Id> {
    set id | id in entries && Due(entries[id], target)
  }

  ghost function Readies(entries: map<Id, Entry>): set<Id> {
    set id | id in entries && entries[id].place == READY
  }

  /** The notes of a poll so far: only due timers fire, each before anything else
      happens to it, and those not mentioned yet are still to fire. */
  ghost predicate Fair(notes: seq<Note>, due: set<Id>, left: set<Id>) {
    && (forall i :: 0 <= i < |notes| && notes[i].Fired? ==> notes[i].id in due && !Mentions(notes[..i], notes[i].id))
    && forall id :: id in left <==> id in due && !Mentions(notes, id)
  }

  lemma FairNone(due: set<Id>)
    ensures Fair([], due, due)
  {
  }

  lemma MentionsMore(notes: seq<Note>, n: Note, id: Id)
    ensures Mentions(notes + [n], id) <==> Mentions(notes, id) || n.id == id
  {
    if Mentions(notes, id) {
      var i :| 0 <= i < |notes| && notes[i].id == id;
      assert (notes + [n])[i].id == id;
    }
    assert (notes + [n])[|notes|] == n;
  }

  lemma FairMore(notes: seq<Note>, n: Note, due: set<Id>, left: set<Id>)
    requires Fair(notes, due, left) && (n.Fired? ==> n.id in left)
    ensures Fair(notes + [n], due, left - {n.id})
  {
    hide Mentions;
    var more := notes + [n];
    forall id
      ensures Mentions(more, id) <==> Mentions(notes, id) || n.id == id
    {
      MentionsMore(notes, n, id);
    }
    forall i | 0 <= i < |more| && more[i].Fired?
      ensures more[i].id in due && !Mentions(more[..i], more[i].id)
    {
      if i < |notes| {
        assert more[..i] == notes[..i] && more[i] == notes[i];
      } else {
        assert more[..i] == notes;
      }
    }
  }

  /** Over a whole poll a timer fires if and only if it was due and nothing had
      happened to it before; it fires once, and no due timer is passed over. */
  lemma FairPoll(notes: seq<Note>, due: set<Id>, id: Id)
    requires Fair(notes, due, {})
    ensures Fires(notes, id) <==> id in due && FiresFirst(notes, id)
    ensures id in due ==> Mentions(notes, id)
    ensures forall i, j :: 0 <= i < j < |notes| && notes[i] == Fired(id) ==> notes[j] != Fired(id)
  {
    if Fires(notes, id) {
      var i :| 0 <= i < |notes| && notes[i] == Fired(id);
      assert !Mentions(notes[..i], id);
    }
    forall i, j | 0 <= i < j < |notes| && notes[i] == Fired(id)
      ensures notes[j] != Fired(id)
    {
      assert notes[..j][i].id == id;
    }
  }

  /** Every timer that fires is armed then, with a deadline that has passed. */
  ghost predicate Ripe(d: map<Id, nat>, notes: seq<Note>, now: nat) {
    forall i :: 0 <= i < |notes| && notes[i].Fired? ==> RipeAt(Replay(d, notes[..i]), notes[i].id, now)
  }

  ghost predicate RipeAt(d: map<Id, nat>, id: Id, now: nat) {
    id in d && d[id] <= now
  }

  lemma RipeFair(d: map<Id, nat>, notes: seq<Note>, due: set<Id>, now: nat)
    requires Fair(notes, due, {}) && forall id :: id in due ==> RipeAt(d, id, now)
    ensures Ripe(d, notes, now)
  {
    hide Mentions, Replay;
    forall i | 0 <= i < |notes| && notes[i].Fired?
      ensures RipeAt(Replay(d, notes[..i]), notes[i].id, now)
    {
      Unmentioned(d, notes[..i], notes[i].id);
      assert RipeAt(d, notes[i].id, now);
    }
  }

  lemma RipeMore(d: map<Id, nat>, a: seq<Note>, b: seq<Note>, now: nat, later: nat)
    requires Ripe(d, a, now) && now <= later && Ripe(Replay(d, a), b, later)
    ensures Ripe(d, a + b, later)
  {
    hide Replay;
    var c := a + b;
    forall i | 0 <= i < |c| && c[i].Fired?
      ensures RipeAt(Replay(d, c[..i]), c[i].id, later)
    {
      if i < |a| {
        assert c[..i] == a[..i];
      } else {
        assert c[..i] == a + b[..i - |a|];
        ReplayMore(d, a, b[..i - |a|]);
      }
    }
  }

  lemma FairActed(notes: seq<Note>, a: Action, d: map<Id, nat>, capacity: nat, due: set<Id>, left: set<Id>)
    requires Fair(notes, due, left)
    ensures
      var more := Acted(a, d, capacity);
      Fair(notes + more, due, if more == [] then left else left - {more[0].id})
  {
    hide Fair;
    var more := Acted(a, d, capacity);
    if more == [] {
      assert notes + more == notes;
    } else {
      FairMore(notes, more[0], due, left);
      assert more == [more[0]];
    }
  }

  lemma RipeLater(d: map<Id, nat>, notes: seq<Note>, now: nat, later: nat)
    requires Ripe(d, notes, now) && now <= later
    ensures Ripe(d, notes, later)
  {
  }

  lemma RipeNone(d: map<Id, nat>, now: nat)
    ensures Ripe(d, [], now) && Replay(d, []) == d
  {
  }

  lemma RipeActed(a: Action, d: map<Id, nat>, capacity: nat, now: nat)
    ensures Ripe(d, Acted(a, d, capacity), now)
  {
  }

  lemma ReadiesLess(e0: map<Id, Entry>, e1: map<Id, Entry>, id: Id)
    requires e1 == e0 - {id} || (id in e1 && e1 == e0[id := e1[id]] && e1[id].place != READY)
    ensures Readies(e1) == Readies(e0) - {id}
  {
  }

  class Wheel {
    const hz: nat
    const capacity: nat
    var clock: nat      // the cycle counter, which never goes back
    var polling: bool
    ghost var log: seq<Note>
    var heads: seq<Ref>       // the buckets, the immediate queue and the ready queue
    var links: map<Id, Link>  // prev and next
    ghost var lists: seq<seq<Id>>  // what they spell
    var occupied: seq<set<int>>
    var entries: map<Id, Entry>
    var cursor: nat
    var nextTick: nat
    var nextCycles: nat

    ghost predicate Linked()
      reads this`lists, this`links, this`heads, this`occupied, this`entries
    {
      && Filed(lists, entries) && Marked(lists, occupied)
      && links.Keys == entries.Keys && Strung(lists, links, heads)
    }

    /** The link fields of its neighbours, for a timer that leaves list `p`. */
    method CutOut(id: Id, p: nat)
      requires Strung(lists, links, heads) && Separate(lists) && p < |lists| && NoDup(lists[p]) && id in lists[p]
      modifies this`links, this`heads
      ensures Strung(lists[p := Without(lists[p], id)], links, heads) && links.Keys == old(links).Keys
      ensures |heads| == |lists| && (heads[p] == Null <==> Without(lists[p], id) == [])
    {
      StrungCut(lists, links, heads, id, p);
      StrungMember(lists, links, heads, p);
      Neighbours(lists[p], links, id);
      hide Strung, Separate, NoDup, Without;
      var l := links[id];
      if l.prev.To? {
        links := SetNext(links, l.prev, l.next);
      } else {
        heads := heads[p := l.next];
      }
      if l.next.To? {
        links := SetPrev(links, l.next, l.prev);
      }
      links := links[id := LOOSE];
      HeadsMatch(lists[p := Without(lists[p], id)], p);
    }

    lemma HeadsMatch(now: seq<seq<Id>>, p: nat)
      requires Strung(now, links, heads) && p < |now|
      ensures |heads| == |now| && (heads[p] == Null <==> now[p] == [])
    {
    }

    /** The link fields of `id` and of the head of list `p`, for a timer that joins it. */
    method PushOn(id: Id, p: nat)
      requires Strung(lists, links, heads) && Separate(lists) && p < |lists| && NoDup(lists[p]) && id in links
      requires forall c :: 0 <= c < |lists| ==> id !in lists[c]
      modifies this`links, this`heads
      ensures Strung(lists[p := [id] + lists[p]], links, heads) && links.Keys == old(links).Keys
    {
      StrungPush(lists, links, heads, id, p);
      StrungMember(lists, links, heads, p);
      hide Strung, Separate, NoDup;
      var first := heads[p];
      links := links[id := Links.Link(Null, first)];
      if first.To? {
        links := SetPrev(links, first, To(id));
      }
      heads := heads[p := To(id)];
    }

    lemma FiledApart(id: Id)
      requires Filed(lists, entries) && id in entries
      ensures |lists| == PLACES && Separate(lists) && forall i :: 0 <= i < PLACES ==> NoDup(lists[i])
      ensures forall c :: 0 <= c < PLACES ==> (id in lists[c] <==> entries[id].place == c)
    {
      forall b | 0 <= b < PLACES
        ensures NoDup(lists[b]) && forall x :: x in lists[b] <==> x in entries && entries[x].place == b
      {
        assert FiledAt(lists[b], entries, b);
      }
    }

    /** `wheel_unlink` */
    method Unlink(id: Id)
      requires Linked() && id in entries && entries[id].place != NOWHERE
      modifies this`lists, this`links, this`heads, this`occupied, this`entries
      ensures Linked() && entries == old(entries)[id := old(entries)[id].(place := NOWHERE)]
      ensures
        var p := old(entries)[id].place;
        lists == old(lists)[p := Without(old(lists)[p], id)]
    {
      hide NoDup, Without, Strung, Separate;
      var p := entries[id].place;
      UnlinkFiled(lists, entries, id);
      FiledApart(id);
      CutOut(id, p);
      lists := lists[p := Without(lists[p], id)];
      entries := entries[id := entries[id].(place := NOWHERE)];
      if p < BUCKETS && heads[p] == Null {
        UnmarkKeeps(old(lists), lists, occupied, p);
        occupied := occupied[p / 64 := occupied[p / 64] - {p % 64}];
      } else {
        MarkKeeps(old(lists), lists, occupied, p);
      }
    }

    /** `wheel_link`, and the bit of a bucket. */
    method Link(id: Id, place: nat)
      requires Linked() && id in entries && entries[id].place == NOWHERE && place < PLACES
      modifies this`lists, this`links, this`heads, this`occupied, this`entries
      ensures Linked() && entries == old(entries)[id := old(entries)[id].(place := place)]
      ensures lists == old(lists)[place := [id] + old(lists)[place]]
    {
      hide NoDup, Strung, Separate;
      LinkFiled(lists, entries, id, place);
      FiledApart(id);
      PushOn(id, place);
      lists := lists[place := [id] + lists[place]];
      entries := entries[id := entries[id].(place := place)];
      if place < BUCKETS {
        BitKeeps(old(lists), lists, occupied, place);
        occupied := occupied[place / 64 := occupied[place / 64] + {place % 64}];
      } else {
        MarkKeeps(old(lists), lists, occupied, place);
      }
    }

    /** The wheel between steps; `open` is the bucket being emptied, or -1. */
    ghost predicate Turning(open: int)
      reads this`lists, this`links, this`heads, this`occupied, this`entries, this`cursor, this`nextTick, this`nextCycles
    {
      && hz >= 1000 && Linked() && Timely(entries, cursor, open) && AtEdge(entries, cursor, open)
      && Cached(lists, cursor, nextTick)
      && nextCycles == Cycles(nextTick, hz) && cursor <= MAX64
      && forall id :: id in entries ==> entries[id].tick <= MAX64
    }

    /** `wheel_schedule` */
    method Schedule(id: Id, ghost open: int) returns (place: nat)
      requires Turning(open) && id in entries && entries[id].place == NOWHERE
      requires 0 <= open < BUCKETS ==> High(entries[id].tick, open / 256) == High(cursor, open / 256)
      modifies this`lists, this`links, this`heads, this`occupied, this`entries, this`nextTick, this`nextCycles
      ensures Turning(open) && entries == old(entries)[id := old(entries)[id].(place := place)]
      ensures place < PLACES && |old(lists)| == PLACES && lists == old(lists)[place := [id] + old(lists)[place]]
      ensures if old(entries)[id].tick <= cursor then place == IMMEDIATE else place < BUCKETS && place != open
    {
      hide Filed, Marked, Strung, Linked, Placed, Boundary, High, Cycles, Level;
      Places();
      var tick := entries[id].tick;
      if tick <= cursor {
        Link(id, IMMEDIATE);
        return IMMEDIATE;
      }
      EightBytes(tick);
      EightBytes(cursor);
      TopLevel(tick, cursor);
      LevelPlaces(tick, cursor, 0);
      var level := Level(tick, cursor, 0);
      var slot := High(tick, level) % 256;
      NotOpen(tick, cursor, level, slot, open);
      Bucket(level, slot);
      place := level * 256 + slot;
      Insert(id, place, level, slot, open);
    }

    /** Into the bucket, and the cached tick never lies behind it. */
    method Insert(id: Id, place: nat, level: nat, slot: nat, ghost open: int)
      requires Turning(open) && id in entries && entries[id].place == NOWHERE && place < BUCKETS && place != open
      requires place / 256 == level && place % 256 == slot && Placed(entries[id].tick, cursor, level, slot)
      modifies this`lists, this`links, this`heads, this`occupied, this`entries, this`nextTick, this`nextCycles
      ensures Turning(open) && entries == old(entries)[id := old(entries)[id].(place := place)]
      ensures |old(lists)| == PLACES && lists == old(lists)[place := [id] + old(lists)[place]]
    {
      hide Marked, Placed, Boundary, High, Cycles, Strung, FiledAt;
      Link(id, place);
      var boundary := Boundary(cursor, level, slot);
      if boundary < nextTick {
        nextTick := boundary;
        nextCycles := Cycles(nextTick, hz);
      }
    }

    /** The lowest used slot of a level, or 256. */
    method FirstSlot(level: nat) returns (slot: nat)
      requires Marked(lists, occupied) && level < LEVELS
      ensures slot <= SLOTS && (slot < SLOTS ==> lists[level * 256 + slot] != [])
      ensures forall b :: level * 256 <= b < level * 256 + slot ==> lists[b] == []
    {
      for word := 0 to 4
        invariant forall b :: level * 256 <= b < level * 256 + word * 64 ==> lists[b] == []
      {
        var bits := occupied[level * 4 + word];
        forall b | level * 256 + word * 64 <= b < level * 256 + word * 64 + 64
          ensures b - level * 256 - word * 64 in bits <==> lists[b] != []
        {
          assert MarkedAt(lists, occupied, b);
        }
        var bit := Lowest(bits);
        if bit < 64 {
          return word * 64 + bit;
        }
      }
      return SLOTS;
    }

    /** `wheel_next`: the used bucket that begins first. */
    method Next() returns (selected: nat)
      requires Linked()
      modifies this`nextTick, this`nextCycles
      ensures selected <= BUCKETS && nextCycles == Cycles(nextTick, hz) && Cached(lists, cursor, nextTick)
      ensures selected == BUCKETS ==> nextTick == MAX64 && forall b :: 0 <= b < BUCKETS ==> lists[b] == []
      ensures selected < BUCKETS ==>
                lists[selected] != [] && nextTick == Boundary(cursor, selected / 256, selected % 256)
    {
      hide Filed, Marked, Boundary, Cycles;
      Places();
      selected, nextTick := BUCKETS, MAX64;
      for level := 0 to LEVELS
        invariant selected <= BUCKETS
        invariant selected == BUCKETS ==> nextTick == MAX64 && forall b :: 0 <= b < level * 256 ==> lists[b] == []
        invariant selected < BUCKETS ==>
                    lists[selected] != [] && nextTick == Boundary(cursor, selected / 256, selected % 256)
        invariant selected < BUCKETS ==> forall b :: 0 <= b < level * 256 && lists[b] != [] ==>
                    nextTick <= Boundary(cursor, b / 256, b % 256)
      {
        var slot := FirstSlot(level);
        if slot < SLOTS {
          var boundary := Boundary(cursor, level, slot);
          LaterSlots(lists, cursor, level, slot);
          Bucket(level, slot);
          if selected == BUCKETS || boundary < nextTick {
            nextTick := boundary;
            selected := level * 256 + slot;
          }
        }
      }
      nextCycles := Cycles(nextTick, hz);
    }

    lemma Places()
      requires Linked()
      ensures |lists| == PLACES
    {
    }

    /** The cursor reaches the first used bucket, which is opened. */
    method Advance(b: nat)
      requires Turning(-1) && b < BUCKETS && lists[b] != [] && nextTick == Boundary(cursor, b / 256, b % 256) <= MAX64
      modifies this`cursor
      ensures Turning(b) && cursor == nextTick > old(cursor)
    {
      hide Marked, Placed, Boundary, High, Cycles;
      Opened(lists, entries, cursor, b, nextTick);
      cursor := nextTick;
    }

    /** Unlink a timer; everything else stays in place. */
    method TakeOut(id: Id, ghost open: int)
      requires Turning(open) && id in entries && entries[id].place != NOWHERE
      modifies this`lists, this`links, this`heads, this`occupied, this`entries
      ensures Turning(open) && entries == old(entries)[id := old(entries)[id].(place := NOWHERE)]
      ensures
        var p := old(entries)[id].place;
        0 <= p < PLACES == |old(lists)| && lists == old(lists)[p := Without(old(lists)[p], id)]
    {
      hide Marked, Placed, Boundary, High, Cycles, Without;
      Places();
      var p := entries[id].place;
      WithoutNothing(id);
      Unlink(id);
    }

    /** Queue a timer that is due: for the running poll, or for the next one. */
    method PutDue(id: Id, place: nat, ghost open: int)
      requires Turning(open) && id in entries && entries[id].place == NOWHERE && (place == READY || place == IMMEDIATE)
      modifies this`lists, this`links, this`heads, this`occupied, this`entries
      ensures Turning(open) && entries == old(entries)[id := old(entries)[id].(place := place)]
      ensures |old(lists)| == PLACES && lists == old(lists)[place := [id] + old(lists)[place]]
    {
      hide Filed, Marked, Placed, Boundary, High, Cycles;
      Places();
      Link(id, place);
    }

    lemma EdgeOf(id: Id, b: nat)
      requires Turning(b) && b < BUCKETS && id in entries && entries[id].place == b
      ensures High(entries[id].tick, b / 256) == High(cursor, b / 256)
    {
    }

    /** Empty the open bucket: due timers become ready, the others move down. */
    method DrainBucket(b: nat, target: nat, now: nat)
      requires Turning(b) && b < BUCKETS && cursor <= target && DueKnown(entries, target, now)
      modifies this`lists, this`links, this`heads, this`occupied, this`entries, this`nextTick, this`nextCycles
      ensures Turning(-1) && Swept(old(entries), entries, target)
    {
      hide Turning, SweptAt, High, Without;
      OnList(b);
      SweptRefl(entries, target);
      while heads[b].To?
        invariant Turning(b) && |lists| == PLACES && Swept(old(entries), entries, target) && Shows(b)
        invariant DueKnown(entries, target, now)
        decreases |lists[b]|
      {
        var id := heads[b].id;
        ghost var was := entries;
        HeadOf(b);
        DropHead(lists[b]);
        EdgeOf(id, b);
        TakeOut(id, b);
        if entries[id].tick <= target && entries[id].deadline <= now {
          PutDue(id, READY, b);
        } else {
          var _ := Schedule(id, b);
        }
        SweptStep(old(entries), was, entries, id, target);
        OnList(b);
      }
      Emptied(b);
    }

    /** The head of a list is its first item. */
    ghost predicate Shows(p: nat)
      reads this`lists, this`heads
    {
      p < |lists| == |heads| && heads[p] == RefAt(lists[p], 0)
    }

    lemma OnList(open: int)
      requires Turning(open)
      ensures |lists| == PLACES && forall p: nat :: p < PLACES ==> Shows(p)
    {
    }

    lemma HeadOf(b: nat)
      requires Turning(b) && b < BUCKETS && lists[b] != []
      ensures lists[b][0] in entries && entries[lists[b][0]].place == b
    {
      FiledHead(lists, entries, b);
    }

    lemma Emptied(b: nat)
      requires Turning(b) && b < BUCKETS && lists[b] == []
      ensures Turning(-1)
    {
      FiledEmpty(lists, entries, b);
    }

    /** The cascade loop of `wheel_poll`: afterwards nothing due is left in a bucket. */
    method Cascade(target: nat, now: nat)
      requires Turning(-1) && cursor <= target <= MAX64 && DueKnown(entries, target, now)
      modifies this`lists, this`links, this`heads, this`occupied, this`entries, this`nextTick, this`nextCycles
      modifies this`cursor
      ensures Turning(-1) && cursor <= target && Swept(old(entries), entries, target) && Later(entries, target)
      ensures |lists| == PLACES && (nextTick > target || forall b :: 0 <= b < BUCKETS ==> lists[b] == [])
    {
      hide Marked, Placed, Boundary, High, Cycles, Filed, Cached, Timely, AtEdge;
      SweptRefl(entries, target);
      while nextTick <= target
        invariant
          && Turning(-1) && cursor <= target && Swept(old(entries), entries, target) && DueKnown(entries, target, now)
        decreases target - cursor
      {
        ghost var e1 := entries;
        var b := Next();
        if b == BUCKETS || nextTick > target {
          break;
        }
        Advance(b);
        DrainBucket(b, target, now);
        SweptTrans(old(entries), e1, entries, target);
        var _ := Next();
      }
      OnList(-1);
      NothingDue(lists, entries, cursor, nextTick, target);
    }

    constructor (hz: nat, capacity: nat, now: nat)
      requires hz >= 1000 && now <= MAX64
      ensures Valid() && entries == map[] && clock == now && !polling && log == []
      ensures this.hz == hz && this.capacity == capacity
    {
      this.hz, this.capacity, clock, polling, log := hz, capacity, now, false, [];
      lists, occupied, entries := seq(PLACES, i => []), seq(WORDS, i => {}), map[];
      heads, links := seq(PLACES, i => Null), map[];
      cursor, nextTick, nextCycles := Tick(now, hz, false), MAX64, MAX64;
      new;
      Saturates(hz);
      StartCursor(now, hz);
    }

    /** An armed timer as the wheel keeps it. */
    ghost predicate Fine(e: Entry)
      reads this`clock, this`polling
      requires hz > 0
    {
      && e.deadline <= MAX64 && e.tick == Tick(e.deadline, hz, true) && e.place != NOWHERE
      && (e.place == IMMEDIATE || e.place == READY ==> e.deadline <= clock) && (e.place == READY ==> polling)
    }

    ghost predicate Valid()
      reads this
    {
      && hz >= 1000 && Turning(-1) && clock <= MAX64 && cursor <= Target(clock, hz) && |entries| <= capacity
      && forall id :: id in entries ==> Fine(entries[id])
    }

    /** Time passes. */
    method Wait(cycles: nat)
      requires Valid()
      modifies this`clock
      ensures Valid() && clock == Min64(old(clock) + cycles) >= old(clock)
    {
      hide Linked, Timely, AtEdge, Cached, Tick;
      TargetMonotone(clock, Min64(clock + cycles), hz);
      clock := Min64(clock + cycles);
    }

    /** `owner_timer_cancel` */
    method Cancel(id: Id)
      requires Valid()
      modifies this`lists, this`links, this`heads, this`occupied, this`entries, this`log
      ensures Valid() && entries == old(entries) - {id}
      ensures log == if id in old(entries) then old(log) + [Cancelled(id)] else old(log)
    {
      hide Turning, Without, Tick, Target;
      if id !in entries {
        assert entries - {id} == entries;
        return;
      }
      TakeOut(id, -1);
      Drop(id);
      assert entries == old(entries) - {id};
      Fewer(old(entries), id);
      log := log + [Cancelled(id)];
    }

    /** `owner_timer_active_unlink` of a timer that is in no list. */
    method Drop(id: Id)
      requires Turning(-1) && id in entries && entries[id].place == NOWHERE
      modifies this`entries, this`links
      ensures Turning(-1) && entries == old(entries) - {id}
    {
      hide Marked, NoDup, Placed, Cached, Cycles, Strung;
      Dropped(lists, entries, id);
      FiledApart(id);
      StrungSame(lists, links, links - {id}, heads);
      links := links - {id};
      entries := entries - {id};
    }

    /** `owner_timer_arm_at`: arm or re-arm. */
    method Arm(id: Id, deadline: nat) returns (r: int)
      requires Valid() && deadline <= MAX64
      modifies this`lists, this`links, this`heads, this`occupied, this`entries, this`nextTick, this`nextCycles, this`log
      ensures Valid() && (r == -1 <==> id !in old(entries) && |old(entries)| >= capacity) && (r == 0 || r == -1)
      ensures r == -1 ==> entries == old(entries) && log == old(log)
      ensures r == 0 ==> id in entries && entries == old(entries)[id := entries[id]]
      ensures r == 0 ==>
                && log == old(log) + [Armed(id, deadline)] && entries[id].deadline == deadline
                && entries[id].place != READY && (entries[id].place == IMMEDIATE <==> deadline <= clock)
    {
      hide Turning, Without, Tick, Target;
      if id !in entries && |entries| >= capacity {
        return -1;
      }
      if id in entries {
        TakeOut(id, -1);
      }
      Queue(id, deadline);
      assert entries == old(entries)[id := entries[id]];
      CountArmed(old(entries), id, entries[id]);
      log := log + [Armed(id, deadline)];
      return 0;
    }

    /** Enter a deadline: among the timers already due, or in the wheel. */
    method Queue(id: Id, deadline: nat)
      requires Turning(-1) && hz >= 1000 && cursor <= Target(clock, hz) && clock <= MAX64 && deadline <= MAX64
      requires id in entries ==> entries[id].place == NOWHERE
      modifies this`lists, this`links, this`heads, this`occupied, this`entries, this`nextTick, this`nextCycles
      ensures Turning(-1) && id in entries && entries == old(entries)[id := entries[id]]
      ensures
        && Fine(entries[id]) && entries[id].deadline == deadline && entries[id].place != READY
        && (entries[id].place == IMMEDIATE <==> deadline <= clock)
    {
      hide Turning, Tick, Target;
      Reaches(deadline);
      Enter(id, deadline);
      ghost var was := entries;
      if deadline <= clock {
        PutDue(id, IMMEDIATE, -1);
      } else {
        var _ := Schedule(id, -1);
      }
      assert entries == was[id := entries[id]];
    }

    /** Record a deadline for a timer that is in no list. */
    method Enter(id: Id, deadline: nat)
      requires Turning(-1) && deadline <= MAX64 && (id in entries ==> entries[id].place == NOWHERE)
      modifies this`entries, this`links
      ensures Turning(-1) && entries == old(entries)[id := Entry(deadline, Tick(deadline, hz, true), NOWHERE)]
    {
      hide Marked, NoDup, Placed, Cached, Cycles, Tick, Strung;
      NotListed(id);
      StrungSame(lists, links, links[id := LOOSE], heads);
      links := links[id := LOOSE];
      TickInRange(deadline, hz);
      Entered(lists, entries, id, Entry(deadline, Tick(deadline, hz, true), NOWHERE));
      entries := entries[id := Entry(deadline, Tick(deadline, hz, true), NOWHERE)];
    }

    lemma NotListed(id: Id)
      requires Filed(lists, entries) && (id in entries ==> entries[id].place == NOWHERE)
      ensures |lists| == PLACES && forall c :: 0 <= c < PLACES ==> id !in lists[c]
    {
      forall c | 0 <= c < PLACES
        ensures id !in lists[c]
      {
        assert FiledAt(lists[c], entries, c);
      }
    }

    lemma Reaches(deadline: nat)
      requires hz >= 1000 && cursor <= Target(clock, hz) && clock <= MAX64 && deadline <= MAX64
      ensures deadline > clock ==> Tick(deadline, hz, true) > cursor
    {
      if deadline > clock { NotDueYet(deadline, clock, hz); }
    }

    /** A callback runs: it may wait, arm and cancel, and nothing else happens. */
    method Callback(script: seq<Action>, ghost due: set<Id>, ghost mark: nat)
      requires Valid() && polling && mark <= |log| && Fair(log[mark..], due, Readies(entries))
      modifies this`lists, this`links, this`heads, this`occupied, this`entries, this`nextTick, this`nextCycles
      modifies this`log, this`clock
      ensures
        && Valid() && old(clock) <= clock && old(log) <= log && Fair(log[mark..], due, Readies(entries))
        && Readies(entries) <= old(Readies(entries))
      ensures
        var d := Deadlines(old(entries));
        var notes := Ran(script, d, capacity);
        log == old(log) + notes && Deadlines(entries) == Replay(d, notes)
    {
      hide Valid, Readies, Fair, Deadlines, Acted;
      ghost var d, notes := Deadlines(entries), [];
      for i := 0 to |script|
        invariant
          && Valid() && old(clock) <= clock && Readies(entries) <= old(Readies(entries))
          && log == old(log) + notes && Fair(log[mark..], due, Readies(entries))
        invariant notes == Ran(script[..i], d, capacity) && Deadlines(entries) == Replay(d, notes)
      {
        ghost var more := Acted(script[i], Deadlines(entries), capacity);
        FairActed(log[mark..], script[i], Deadlines(entries), capacity, due, Readies(entries));
        assert (log + more)[mark..] == log[mark..] + more;
        Act(script[i]);
        ReplayMore(d, notes, more);
        assert script[..i + 1][..i] == script[..i];
        notes := notes + more;
      }
      assert script[..|script|] == script;
    }

    /** One request, on the wheel as on the set of deadlines. */
    method Act(a: Action)
      requires Valid()
      modifies this`lists, this`links, this`heads, this`occupied, this`entries, this`nextTick, this`nextCycles
      modifies this`log, this`clock
      ensures Valid() && old(clock) <= clock
      ensures clock == if a.Sleep? then Min64(old(clock) + a.cycles) else old(clock)
      ensures
        var d := Deadlines(old(entries));
        var notes := Acted(a, d, capacity);
        && log == old(log) + notes && Deadlines(entries) == Replay(d, notes)
        && Readies(entries) == if notes == [] then Readies(old(entries)) else Readies(old(entries)) - {notes[0].id}
      ensures
        var d := Deadlines(old(entries));
        match a
        case ArmIt(id, deadline) =>
          if id !in d && |d| >= capacity then entries == old(entries)
          else Deadlines(entries) == d[id := if deadline > MAX64 then MAX64 else deadline]
        case CancelIt(id) => entries == old(entries) - {id}
        case Sleep(cycles) => entries == old(entries)
    {
      hide Valid, Readies, Deadlines, Replay;
      ghost var was := entries;
      ActedNotes(a, Deadlines(was), capacity);
      match a {
        case ArmIt(id, deadline) =>
          var r := Arm(id, Min64(deadline));
          ArmedIn(was, id);
          if r == 0 {
            ReadiesLess(was, entries, id);
            DeadlinesMore(was, id, entries[id]);
          }
        case CancelIt(id) =>
          Cancel(id);
          ArmedIn(was, id);
          ReadiesLess(was, entries, id);
          DeadlinesLess(was, id);
          if id !in was {
            assert entries == was;
          }
        case Sleep(cycles) => Wait(cycles);
      }
    }

    /** Timers that were due when armed become ready. */
    method TakeImmediate()
      requires Turning(-1)
      modifies this`lists, this`links, this`heads, this`occupied, this`entries
      ensures Turning(-1) && Promoted(old(entries), entries)
    {
      hide Turning, Without, PromotedAt;
      OnList(-1);
      PromotedRefl(entries);
      while heads[IMMEDIATE].To?
        invariant Turning(-1) && |lists| == PLACES && Promoting(old(entries), entries) && Shows(IMMEDIATE)
        decreases |lists[IMMEDIATE]|
      {
        var id := heads[IMMEDIATE].id;
        ghost var was := entries;
        FirstIn(IMMEDIATE);
        DropHead(lists[IMMEDIATE]);
        TakeOut(id, -1);
        PutDue(id, READY, -1);
        PromotingStep(old(entries), was, entries, id);
        OnList(-1);
      }
      NoneIn(IMMEDIATE);
    }

    lemma FirstIn(place: nat)
      requires Turning(-1) && place < PLACES && lists[place] != []
      ensures lists[place][0] in entries && entries[lists[place][0]].place == place
    {
      FiledHead(lists, entries, place);
    }

    lemma NoneIn(place: nat)
      requires Turning(-1) && place < PLACES && lists[place] == []
      ensures forall id :: id in entries ==> entries[id].place != place
    {
      FiledEmpty(lists, entries, place);
    }

    /** Nothing used begins at or before `target`: the cursor may go there. */
    method MoveCursor(target: nat)
      requires
        && Turning(-1) && cursor <= target <= MAX64 && |lists| == PLACES
        && (nextTick > target || forall b :: 0 <= b < BUCKETS ==> lists[b] == [])
      modifies this`cursor
      ensures Turning(-1) && cursor == target
    {
      hide Marked, Placed, Boundary, High, Cycles;
      Unmoved(lists, entries, cursor, target, nextTick);
      cursor := target;
    }

    /** Before the cached cycle count nothing is due. */
    lemma NoneDue()
      requires Valid() && !polling && |lists| == PLACES && lists[IMMEDIATE] == [] && clock < nextCycles
      ensures DueSet(entries, Target(clock, hz)) == {}
    {
      hide Marked, Placed, Boundary, High, Cycles, Tick;
      FiledEmpty(lists, entries, IMMEDIATE);
      EarlyOut(clock, nextTick, hz);
      NothingDue(lists, entries, cursor, nextTick, Target(clock, hz));
    }

    lemma TicksKnown()
      requires Valid()
      ensures DueKnown(entries, Target(clock, hz), clock) && Target(clock, hz) <= MAX64
      ensures forall id :: id in DueSet(entries, Target(clock, hz)) ==> entries[id].deadline <= clock
    {
      hide Turning, Tick;
      TargetFits(clock, hz);
      forall id | id in entries && entries[id].tick <= Target(clock, hz)
        ensures entries[id].deadline <= clock
      {
        if entries[id].deadline > clock { NotDueYet(entries[id].deadline, clock, hz); }
      }
    }

    /** The first half of `wheel_poll`: exactly the due timers become ready. */
    method Collect()
      requires Valid() && !polling
      modifies this`lists, this`links, this`heads, this`occupied, this`entries, this`nextTick, this`nextCycles
      modifies this`cursor, this`polling
      ensures Valid() && polling && Readies(entries) == DueSet(old(entries), Target(clock, hz))
      ensures Deadlines(entries) == Deadlines(old(entries)) && cursor == Target(clock, hz)
    {
      hide Turning, Tick, Target, Fine, Readies, DueSet, Promoted, Swept, Later;
      var now := clock;
      TicksKnown();
      InPlace();
      var target := Target(now, hz);
      polling := true;
      ghost var e0 := entries;
      TakeImmediate();
      ghost var e1 := entries;
      StillKnown(e0, e1, target, now);
      Cascade(target, now);
      if target > cursor {
        MoveCursor(target);
      }
      Collected(e0, e1, entries, target);
      SameNumber(e0, entries);
      AllFine(e0, target);
    }

    lemma InPlace()
      requires Valid() && !polling
      ensures forall id :: id in entries ==>
                && 0 <= entries[id].place <= IMMEDIATE && entries[id].deadline <= MAX64
                && entries[id].tick == Tick(entries[id].deadline, hz, true)
      ensures forall id :: id in entries && (entries[id].place == IMMEDIATE || entries[id].tick <= Target(clock, hz))
                ==> entries[id].deadline <= clock
    {
      hide Tick, Target;
      TicksKnown();
    }

    lemma AllFine(e0: map<Id, Entry>, target: nat)
      requires hz >= 1000 && polling && entries.Keys == e0.Keys
      requires forall id :: id in e0 ==> e0[id].deadline <= MAX64 && e0[id].tick == Tick(e0[id].deadline, hz, true)
      requires forall id :: id in e0 && (e0[id].place == IMMEDIATE || e0[id].tick <= target) ==>
                 e0[id].deadline <= clock
      requires forall id :: id in entries ==>
                 && entries[id].deadline == e0[id].deadline && entries[id].tick == e0[id].tick
                 && entries[id].place != NOWHERE && entries[id].place != IMMEDIATE
      requires forall id :: id in entries && entries[id].place == READY ==>
                 e0[id].place == IMMEDIATE || e0[id].tick <= target
      ensures forall id :: id in entries ==> Fine(entries[id])
    {
      hide Tick;
    }

    /** The first ready timer leaves the wheel. */
    method TakeReady(ghost due: set<Id>, ghost mark: nat) returns (id: Id)
      requires Valid() && polling && |lists| == PLACES && Shows(READY) && heads[READY].To?
      requires mark <= |log| && Fair(log[mark..], due, Readies(entries))
      modifies this`lists, this`links, this`heads, this`occupied, this`entries, this`log
      ensures Valid() && id in Readies(old(entries)) && Readies(entries) == Readies(old(entries)) - {id}
      ensures entries == old(entries) - {id} && log == old(log) + [Fired(id)]
      ensures Fair(log[mark..], due, Readies(entries))
    {
      hide Turning, Fair, Tick, Target, Without;
      id := heads[READY].id;
      ghost var was := entries;
      FirstIn(READY);
      TakeOut(id, -1);
      Drop(id);
      assert entries == was - {id};
      Fewer(was, id);
      ReadiesLess(was, entries, id);
      FairMore(log[mark..], Fired(id), due, Readies(was));
      assert (log + [Fired(id)])[mark..] == log[mark..] + [Fired(id)];
      log := log + [Fired(id)];
    }

    /** Fire the first ready timer. */
    method FireOne(script: seq<Action>, ghost due: set<Id>, ghost mark: nat) returns (id: Id, ghost more: seq<Note>)
      requires Valid() && polling && |lists| == PLACES && Shows(READY) && heads[READY].To?
      requires mark <= |log| && Fair(log[mark..], due, Readies(entries))
      modifies this`lists, this`links, this`heads, this`occupied, this`entries, this`nextTick, this`nextCycles
      modifies this`log, this`clock
      ensures Valid() && old(clock) <= clock && Readies(entries) < Readies(old(entries))
      ensures
        var d := Deadlines(old(entries)) - {id};
        && more == Ran(script, d, capacity) && log == old(log) + [Fired(id)] + more
        && Deadlines(entries) == Replay(d, more) && Fair(log[mark..], due, Readies(entries))
    {
      hide Valid, Shows, Fair, Deadlines, Replay, Readies, Ran;
      id := TakeReady(due, mark);
      DeadlinesLess(old(entries), id);
      more := Ran(script, Deadlines(entries), capacity);
      Callback(script, due, mark);
    }

    /** The second half: callbacks run, and may touch what is still ready. */
    method FireAll(scripts: seq<seq<Action>>, ghost due: set<Id>, ghost mark: nat) returns (ghost order: seq<Id>)
      requires Valid() && polling && mark == |log| && Readies(entries) == due
      modifies this`lists, this`links, this`heads, this`occupied, this`entries, this`nextTick, this`nextCycles
      modifies this`log, this`clock
      modifies this`polling
      ensures Valid() && !polling && old(clock) <= clock
      ensures
        var d := Deadlines(old(entries));
        var notes := Told(d, order, scripts, capacity);
        log == old(log) + notes && Deadlines(entries) == Replay(d, notes) && Fair(notes, due, {})
    {
      hide Turning, Fair, Tick, Target, Without, Deadlines, Told, Replay;
      OnList(-1);
      FairNone(due);
      ghost var d, notes := Deadlines(entries), [];
      order := [];
      ToldNone(d, scripts, capacity);
      assert log[mark..] == [];
      var fired := 0;
      while heads[READY].To?
        invariant Valid() && polling && |lists| == PLACES && Shows(READY) && old(clock) <= clock
        invariant log == old(log) + notes && Fair(log[mark..], due, Readies(entries)) && fired == |order|
        invariant notes == Told(d, order, scripts, capacity) && Deadlines(entries) == Replay(d, notes)
        decreases Readies(entries)
      {
        ghost var more;
        var id;
        id, more := FireOne(ScriptAt(scripts, fired), due, mark);
        ToldFired(d, order, id, scripts, capacity);
        ReplayMore(d, notes + [Fired(id)], more);
        notes, order, fired := notes + [Fired(id)] + more, order + [id], fired + 1;
        OnList(-1);
      }
      NoneIn(READY);
      assert Readies(entries) == {};
      assert log[mark..] == notes;
      polling := false;
    }

    /** `wheel_poll`, whose callbacks make the requests in `scripts`: it does what the
        same poll does on the plain set of deadlines. It fires exactly the timers that
        were due at entry, none before its deadline, except those an earlier callback
        cancelled or re-armed; every timer that is not mentioned keeps its deadline. */
    method Poll(scripts: seq<seq<Action>>) returns (ghost order: seq<Id>)
      requires Valid()
      modifies this
      ensures Valid() && polling == old(polling) && old(clock) <= clock
      ensures old(polling) ==> log == old(log) && entries == old(entries)
      ensures
        var d := Deadlines(old(entries));
        var notes := Told(d, order, scripts, capacity);
        && log == old(log) + notes && Deadlines(entries) == Replay(d, notes)
        && forall id :: !Mentions(notes, id) ==>
             (id in entries <==> id in d) && (id in d ==> entries[id].deadline == d[id])
      ensures !old(polling) ==>
                var due := DueSet(old(entries), Target(old(clock), hz));
                Fair(log[|old(log)|..], due, {}) && forall id :: id in due ==> old(entries)[id].deadline <= old(clock)
    {
      hide Turning, Fair, Tick, Target, Fine, Told, Replay, Mentions;
      order := [];
      ghost var d := Deadlines(entries);
      ToldNone(d, scripts, capacity);
      OnList(-1);
      TicksKnown();
      if polling {
        return;
      }
      ghost var due := DueSet(entries, Target(clock, hz));
      FairNone({});
      assert log[|log|..] == [];
      if |entries| == 0 {
        assert due == {};
        return;
      }
      assert Shows(IMMEDIATE);
      if heads[IMMEDIATE] == Null && clock < nextCycles {
        NoneDue();
        return;
      }
      Collect();
      order := FireAll(scripts, due, |log|);
      ghost var notes := Told(d, order, scripts, capacity);
      assert log[|old(log)|..] == notes;
      KeptDeadlines(d, notes);
    }

    /** What a step of the owner at time `now` makes of the deadlines `d`: a request does what it does
        there, and a poll gives every timer its turn whose tick is reached. */
    ghost predicate Served(step: Step, d: map<Id, nat>, notes: seq<Note>, now: nat, later: nat)
      requires hz > 0
    {
      match step
      case Request(a) =>
        notes == Acted(a, d, capacity) && later == if a.Sleep? then Min64(now + a.cycles) else now
      case PollNow(scripts) =>
        && now <= later && (exists order :: notes == Told(d, order, scripts, capacity))
        && forall id :: id in d && Tick(d[id], hz, true) <= Target(now, hz) ==> Mentions(notes, id)
    }

    /** One step of the owner, on the wheel as on the set of deadlines. */
    method Serve(step: Step) returns (ghost notes: seq<Note>)
      requires Valid() && !polling
      modifies this
      ensures Valid() && !polling && old(clock) <= clock && log == old(log) + notes && hz > 0
      ensures Served(step, Deadlines(old(entries)), notes, old(clock), clock)
      ensures
        && Deadlines(entries) == Replay(Deadlines(old(entries)), notes) && Ripe(Deadlines(old(entries)), notes, clock)
    {
      hide Valid, Fair, Told, Replay, Mentions, Deadlines, Ripe, Acted, DueSet, Target;
      ghost var d := Deadlines(entries);
      DueRipe();
      match step {
        case Request(a) =>
          notes := Acted(a, d, capacity);
          Act(a);
          RipeActed(a, d, capacity, clock);
        case PollNow(scripts) =>
          InPlace();
          ghost var due := DueSet(entries, Target(clock, hz));
          ghost var order := Poll(scripts);
          notes := Told(d, order, scripts, capacity);
          assert log[|old(log)|..] == notes;
          RipeFair(d, notes, due, old(clock));
          Turns(old(entries), d, notes, due, Target(old(clock), hz));
          RipeLater(d, notes, old(clock), clock);
      }
    }

    /** A timer whose tick is reached is due, and gets its turn. */
    lemma Turns(e: map<Id, Entry>, d: map<Id, nat>, notes: seq<Note>, due: set<Id>, target: nat)
      requires hz > 0 && d == Deadlines(e) && due == DueSet(e, target) && Fair(notes, due, {})
      requires forall id :: id in e ==> e[id].tick == Tick(e[id].deadline, hz, true)
      ensures forall id :: id in d && Tick(d[id], hz, true) <= target ==> Mentions(notes, id)
    {
      hide Tick, Mentions;
      forall id | id in d && Tick(d[id], hz, true) <= target
        ensures Mentions(notes, id)
      {
        FairPoll(notes, due, id);
      }
    }

    lemma DueRipe()
      requires Valid()
      ensures hz > 0 && forall id :: id in DueSet(entries, Target(clock, hz)) ==> RipeAt(Deadlines(entries), id, clock)
    {
      hide Turning, Tick, Target;
      TicksKnown();
    }

    /** Whatever an owner does: in every reachable state the armed timers are exactly
        those that the notes leave, and no timer fired unarmed or before its deadline. */
    method Run(steps: seq<Step>) returns (ghost parts: seq<seq<Note>>, ghost times: seq<nat>)
      requires Valid() && !polling
      modifies this
      ensures Valid() && !polling && old(log) <= log && hz > 0
      ensures |parts| == |steps| && |times| == |steps| + 1 && times[0] == old(clock) && log == old(log) + Joined(parts)
      ensures forall i :: 0 <= i < |steps| ==>
                Served(steps[i], Replay(Deadlines(old(entries)), Joined(parts[..i])), parts[i], times[i], times[i + 1])
      ensures
        var d := Deadlines(old(entries));
        var notes := log[|old(log)|..];
        Deadlines(entries) == Replay(d, notes) && Ripe(d, notes, clock)
    {
      hide Valid, Replay, Deadlines, Ripe, Acted, Served;
      ghost var d, notes := Deadlines(entries), [];
      RipeNone(d, clock);
      DueRipe();
      parts, times := [], [clock];
      for i := 0 to |steps|
        invariant Valid() && !polling && log == old(log) + notes
        invariant Deadlines(entries) == Replay(d, notes) && Ripe(d, notes, clock)
        invariant |parts| == i && notes == Joined(parts)
        invariant |times| == i + 1 && times[0] == old(clock) && times[i] == clock
        invariant forall j :: 0 <= j < i ==>
                    Served(steps[j], Replay(d, Joined(parts[..j])), parts[j], times[j], times[j + 1])
      {
        ghost var now, was := clock, parts;
        ghost var more := Serve(steps[i]);
        ReplayMore(d, notes, more);
        RipeMore(d, notes, more, now, clock);
        notes := notes + more;
        parts, times := parts + [more], times + [clock];
        assert parts[..i] == was && forall j :: 0 <= j < i ==> parts[..j] == was[..j];
      }
      assert log[|old(log)|..] == notes;
    }

    lemma KeptDeadlines(d: map<Id, nat>, notes: seq<Note>)
      requires Deadlines(entries) == Replay(d, notes)
      ensures forall id :: !Mentions(notes, id) ==>
                (id in entries <==> id in d) && (id in d ==> entries[id].deadline == d[id])
    {
      hide Mentions, Replay;
      forall id | !Mentions(notes, id)
        ensures (id in entries <==> id in d) && (id in d ==> entries[id].deadline == d[id])
      {
        Unmentioned(d, notes, id);
        assert id in Deadlines(entries) <==> id in entries;
      }
    }
  }

  lemma TargetFits(now: nat, hz: nat)
    requires hz > 0
    ensures Target(now, hz) <= MAX64
  {
  }

  lemma Saturates(hz: nat)
    requires hz >= 1000
    ensures Cycles(MAX64, hz) == MAX64
  {
    MulOrder(1000, hz, MAX64);
  }

  lemma StartCursor(now: nat, hz: nat)
    requires hz >= 1000 && now <= MAX64
    ensures Tick(now, hz, false) <= Target(now, hz) && Tick(now, hz, false) <= MAX64
  {
    TickFits(now, hz, false);
    if now == MAX64 {
      TickFits(now, hz, true);
      DivBounds(now * 1000, hz);
      DivBounds(now * 1000 + hz - 1, hz);
      var a, b := now * 1000 / hz, (now * 1000 + hz - 1) / hz;
      assert (b + 1) * hz == b * hz + hz;
      MulOrder(a, b + 1, hz);
    }
  }

  lemma UnlinkFiled(lists: seq<seq<Id>>, entries: map<Id, Entry>, id: Id)
    requires Filed(lists, entries) && id in entries && entries[id].place != NOWHERE
    ensures
      var p := entries[id].place;
      Filed(lists[p := Without(lists[p], id)], entries[id := entries[id].(place := NOWHERE)])
  {
    hide NoDup, Without;
    var p := entries[id].place;
    assert FiledAt(lists[p], entries, p);
    WithoutFacts(lists[p], id);
    var l, e := lists[p := Without(lists[p], id)], entries[id := entries[id].(place := NOWHERE)];
    forall i | 0 <= i < PLACES
      ensures FiledAt(l[i], e, i)
    {
      assert FiledAt(lists[i], entries, i);
    }
  }

  lemma LinkFiled(lists: seq<seq<Id>>, entries: map<Id, Entry>, id: Id, place: nat)
    requires Filed(lists, entries) && id in entries && entries[id].place == NOWHERE && place < PLACES
    ensures Filed(lists[place := [id] + lists[place]], entries[id := entries[id].(place := place)])
  {
    hide NoDup;
    assert FiledAt(lists[place], entries, place);
    LinkFacts(lists[place], id);
    var l, e := lists[place := [id] + lists[place]], entries[id := entries[id].(place := place)];
    forall i | 0 <= i < PLACES
      ensures FiledAt(l[i], e, i)
    {
      assert FiledAt(lists[i], entries, i);
    }
  }

  lemma MarkKeeps(lists: seq<seq<Id>>, l: seq<seq<Id>>, occupied: seq<set<int>>, p: nat)
    requires
      && Marked(lists, occupied) && p < PLACES && |l| == |lists| && l == lists[p := l[p]]
      && (p < BUCKETS ==> (lists[p] == [] <==> l[p] == []))
    ensures Marked(l, occupied)
  {
    forall b | 0 <= b < BUCKETS
      ensures MarkedAt(l, occupied, b)
    {
      assert MarkedAt(lists, occupied, b);
    }
  }

  lemma UnmarkKeeps(lists: seq<seq<Id>>, l: seq<seq<Id>>, occupied: seq<set<int>>, p: nat)
    requires Marked(lists, occupied) && p < BUCKETS && |lists| == |l| && l == lists[p := []]
    ensures Marked(l, occupied[p / 64 := occupied[p / 64] - {p % 64}])
  {
    var o := occupied[p / 64 := occupied[p / 64] - {p % 64}];
    forall b | 0 <= b < BUCKETS
      ensures MarkedAt(l, o, b)
    {
      assert MarkedAt(lists, occupied, b);
    }
  }

  lemma BitKeeps(lists: seq<seq<Id>>, l: seq<seq<Id>>, occupied: seq<set<int>>, p: nat)
    requires Marked(lists, occupied) && p < BUCKETS && |lists| == |l| && l == lists[p := l[p]] && l[p] != []
    ensures Marked(l, occupied[p / 64 := occupied[p / 64] + {p % 64}])
  {
    var o := occupied[p / 64 := occupied[p / 64] + {p % 64}];
    forall b | 0 <= b < BUCKETS
      ensures MarkedAt(l, o, b)
    {
      assert MarkedAt(lists, occupied, b);
    }
  }

  lemma Bucket(level: nat, slot: nat)
    requires level < LEVELS && slot < SLOTS
    ensures
      var b := level * 256 + slot;
      b < BUCKETS && b / 256 == level && b % 256 == slot
  {
  }

  lemma TopLevel(tick: nat, cursor: nat)
    ensures High(tick, 0) == tick && High(cursor, 0) == cursor
  {
  }

  /** A timer that shares the open bucket's byte with the cursor goes lower. */
  lemma NotOpen(tick: nat, cursor: nat, level: nat, slot: nat, open: int)
    requires Placed(tick, cursor, level, slot)
    requires 0 <= open < BUCKETS ==> High(tick, open / 256) == High(cursor, open / 256)
    ensures level * 256 + slot != open
  {
    if 0 <= open < BUCKETS && open / 256 <= level { SameAbove(tick, cursor, open / 256, level); }
  }

  /** `__builtin_ctzll`: the lowest bit set, or 64. */
  method Lowest(bits: set<int>) returns (bit: nat)
    requires forall x :: x in bits ==> 0 <= x < 64
    ensures bit <= 64 && (bit < 64 ==> bit in bits) && forall x :: x in bits ==> bit <= x
  {
    bit := 0;
    while bit < 64 && bit !in bits
      invariant bit <= 64 && forall x :: x in bits ==> bit <= x
    {
      bit := bit + 1;
    }
  }

  /** Later slots of a level begin later. */
  lemma LaterSlots(lists: seq<seq<Id>>, cursor: nat, level: nat, slot: nat)
    requires
      && |lists| == PLACES && level < LEVELS && slot < SLOTS
      && forall b :: level * 256 <= b < level * 256 + slot ==> lists[b] == []
    ensures forall b :: level * 256 <= b < level * 256 + 256 && lists[b] != [] ==>
              Boundary(cursor, level, slot) <= Boundary(cursor, b / 256, b % 256)
  {
    forall b | level * 256 <= b < level * 256 + 256 && lists[b] != []
      ensures Boundary(cursor, level, slot) <= Boundary(cursor, b / 256, b % 256)
    {
      var k := b - level * 256;
      if slot < k { ScaleMonotone(High(cursor, level + 1) * 256 + slot, High(cursor, level + 1) * 256 + k, level); }
    }
  }

  /** A deadline on a reached tick has passed. */
  ghost predicate DueKnown(entries: map<Id, Entry>, target: nat, now: nat) {
    forall id :: id in entries && entries[id].tick <= target ==> entries[id].deadline <= now
  }

  /** Timers kept their deadlines; those in buckets moved down, or were due and became ready. */
  ghost predicate Swept(e0: map<Id, Entry>, e: map<Id, Entry>, target: nat) {
    e.Keys == e0.Keys && forall id :: id in e ==> SweptAt(e0[id], e[id], target)
  }

  ghost predicate SweptAt(x: Entry, y: Entry, target: nat) {
    && y.deadline == x.deadline && y.tick == x.tick
    && (if 0 <= x.place < BUCKETS then 0 <= y.place < BUCKETS || (y.place == READY && y.tick <= target)
        else y.place == x.place)
  }

  /** Nothing in a bucket is due at `target`. */
  ghost predicate Later(entries: map<Id, Entry>, target: nat) {
    forall id :: id in entries && 0 <= entries[id].place < BUCKETS ==> entries[id].tick > target
  }

  lemma SweptRefl(e: map<Id, Entry>, target: nat)
    ensures Swept(e, e, target)
  {
  }

  lemma SweptTrans(e0: map<Id, Entry>, e1: map<Id, Entry>, e2: map<Id, Entry>, target: nat)
    requires Swept(e0, e1, target) && Swept(e1, e2, target)
    ensures Swept(e0, e2, target)
  {
    forall id | id in e2
      ensures SweptAt(e0[id], e2[id], target)
    {
      assert SweptAt(e1[id], e2[id], target) && SweptAt(e0[id], e1[id], target);
    }
  }

  lemma SweptStep(e0: map<Id, Entry>, e1: map<Id, Entry>, e2: map<Id, Entry>, id: Id, target: nat)
    requires Swept(e0, e1, target) && id in e1 && 0 <= e1[id].place < BUCKETS
    requires id in e2 && e2 == e1[id := e2[id]] && SweptAt(e1[id], e2[id], target)
    ensures Swept(e0, e2, target)
  {
    forall x | x in e2
      ensures SweptAt(e0[x], e2[x], target)
    {
      assert SweptAt(e0[x], e1[x], target);
    }
  }

  lemma WithoutNothing(id: Id)
    ensures Without([], id) == []
  {
  }

  lemma FiledHead(lists: seq<seq<Id>>, entries: map<Id, Entry>, b: nat)
    requires Filed(lists, entries) && b < PLACES && lists[b] != []
    ensures lists[b][0] in entries && entries[lists[b][0]].place == b
  {
    assert FiledAt(lists[b], entries, b);
    assert lists[b][0] in lists[b];
  }

  lemma DropHead(list: seq<Id>)
    requires list != []
    ensures Without(list, list[0]) == list[1..]
  {
  }

  lemma FiledEmpty(lists: seq<seq<Id>>, entries: map<Id, Entry>, b: nat)
    requires Filed(lists, entries) && b < PLACES && lists[b] == []
    ensures forall id :: id in entries ==> entries[id].place != b
  {
    assert FiledAt(lists[b], entries, b);
  }

  /** If every used bucket begins after `target`, or none is used, nothing in them is due. */
  lemma NothingDue(lists: seq<seq<Id>>, entries: map<Id, Entry>, cursor: nat, nextTick: nat, target: nat)
    requires Filed(lists, entries) && Timely(entries, cursor, -1) && Cached(lists, cursor, nextTick)
    requires nextTick > target || forall b :: 0 <= b < BUCKETS ==> lists[b] == []
    ensures Later(entries, target)
  {
    hide Placed, Boundary, High;
    forall id | id in entries && 0 <= entries[id].place < BUCKETS
      ensures entries[id].tick > target
    {
      var b := entries[id].place;
      assert FiledAt(lists[b], entries, b);
      assert id in lists[b];
      BoundaryBetween(entries[id].tick, cursor, b / 256, b % 256);
    }
  }

  /** Moving the cursor to the first boundary disturbs no other bucket. */
  lemma Opened(lists: seq<seq<Id>>, entries: map<Id, Entry>, c: nat, b: nat, d: nat)
    requires Filed(lists, entries) && Timely(entries, c, -1) && b < BUCKETS && lists[b] != []
    requires d == Boundary(c, b / 256, b % 256) && Cached(lists, c, d)
    ensures c < d && Timely(entries, d, b) && AtEdge(entries, d, b) && Cached(lists, d, d)
  {
    hide Placed, Boundary, High;
    FiledHead(lists, entries, b);
    BoundaryBetween(entries[lists[b][0]].tick, c, b / 256, b % 256);
    forall id | id in entries && 0 <= entries[id].place < BUCKETS
      ensures entries[id].place != b ==> Placed(entries[id].tick, d, entries[id].place / 256, entries[id].place % 256)
      ensures entries[id].place != b ==>
                Boundary(d, entries[id].place / 256, entries[id].place % 256) ==
                  Boundary(c, entries[id].place / 256, entries[id].place % 256)
      ensures entries[id].place == b ==> d <= entries[id].tick && High(entries[id].tick, b / 256) == High(d, b / 256)
    {
      var e := entries[id];
      assert FiledAt(lists[e.place], entries, e.place);
      assert id in lists[e.place];
      if e.place == b {
        AtBoundary(e.tick, c, b / 256, b % 256);
      } else {
        Apart(e.tick, entries[lists[b][0]].tick, c, e.place, b);
        PlacedStays(e.tick, c, d, e.place / 256, e.place % 256);
      }
    }
    forall x | 0 <= x < BUCKETS && lists[x] != []
      ensures d <= Boundary(d, x / 256, x % 256)
    {
      FiledHead(lists, entries, x);
      if x == b { OwnBoundary(c, b / 256, b % 256); }
    }
  }

  lemma AtBoundary(tick: nat, c: nat, level: nat, slot: nat)
    requires Placed(tick, c, level, slot)
    ensures Boundary(c, level, slot) <= tick && High(tick, level) == High(Boundary(c, level, slot), level)
  {
    BoundaryBetween(tick, c, level, slot);
    HighScale(High(c, level + 1) * 256 + slot, level);
  }

  lemma OwnBoundary(c: nat, level: nat, slot: nat)
    requires slot < 256
    ensures Boundary(Boundary(c, level, slot), level, slot) == Boundary(c, level, slot)
  {
    HighScale(High(c, level + 1) * 256 + slot, level);
  }

  lemma Apart(t1: nat, t2: nat, c: nat, b1: nat, b2: nat)
    requires b1 < BUCKETS && b2 < BUCKETS && b1 != b2
    requires Placed(t1, c, b1 / 256, b1 % 256) && Placed(t2, c, b2 / 256, b2 % 256)
    ensures Boundary(c, b1 / 256, b1 % 256) != Boundary(c, b2 / 256, b2 % 256)
  {
    var l1, s1, l2, s2 := b1 / 256, b1 % 256, b2 / 256, b2 % 256;
    if l1 < l2 {
      BoundariesDiffer(c, l1, s1, l2, s2);
    } else if l2 < l1 {
      BoundariesDiffer(c, l2, s2, l1, s1);
    } else if s1 < s2 {
      ScaleMonotone(High(c, l1 + 1) * 256 + s1, High(c, l1 + 1) * 256 + s2, l1);
    } else {
      ScaleMonotone(High(c, l1 + 1) * 256 + s2, High(c, l1 + 1) * 256 + s1, l1);
    }
  }

  lemma Fewer(entries: map<Id, Entry>, id: Id)
    ensures |entries - {id}| <= |entries|
  {
    var rest := entries - {id};
    assert rest.Keys <= entries.Keys;
    Subset(rest.Keys, entries.Keys);
  }

  lemma {:induction false} Subset(a: set<Id>, b: set<Id>)
    requires a <= b
    ensures |a| <= |b|
    decreases a
  {
    if a != {} {
      var x :| x in a;
      Subset(a - {x}, b - {x});
    }
  }

  lemma CountArmed(entries: map<Id, Entry>, id: Id, e: Entry)
    ensures |entries[id := e]| == |entries| + if id in entries then 0 else 1
  {
    assert entries[id := e].Keys == entries.Keys + {id};
  }

  lemma Dropped(lists: seq<seq<Id>>, entries: map<Id, Entry>, id: Id)
    requires Filed(lists, entries) && id in entries && entries[id].place == NOWHERE
    ensures Filed(lists, entries - {id})
  {
    hide NoDup;
    forall i | 0 <= i < PLACES
      ensures FiledAt(lists[i], entries - {id}, i)
    {
      assert FiledAt(lists[i], entries, i);
    }
  }

  lemma Entered(lists: seq<seq<Id>>, entries: map<Id, Entry>, id: Id, e: Entry)
    requires Filed(lists, entries) && (id in entries ==> entries[id].place == NOWHERE) && e.place == NOWHERE
    ensures Filed(lists, entries[id := e])
  {
    hide NoDup;
    forall i | 0 <= i < PLACES
      ensures FiledAt(lists[i], entries[id := e], i)
    {
      assert FiledAt(lists[i], entries, i);
    }
  }

  lemma TickInRange(deadline: nat, hz: nat)
    requires hz >= 1000 && deadline <= MAX64
    ensures Tick(deadline, hz, true) <= MAX64
  {
    TickFits(deadline, hz, true);
  }

  /** Timers on the immediate queue became ready; `Promoting` is the same on the way. */
  ghost predicate Promoting(e0: map<Id, Entry>, e: map<Id, Entry>) {
    e.Keys == e0.Keys && forall id :: id in e ==> PromotedAt(e0[id], e[id])
  }

  ghost predicate PromotedAt(x: Entry, y: Entry) {
    y == x || (x.place == IMMEDIATE && y == x.(place := READY))
  }

  ghost predicate Promoted(e0: map<Id, Entry>, e: map<Id, Entry>) {
    Promoting(e0, e) && forall id :: id in e ==> e[id].place != IMMEDIATE
  }

  lemma PromotedRefl(e: map<Id, Entry>)
    ensures Promoting(e, e)
  {
  }

  lemma PromotingStep(e0: map<Id, Entry>, e1: map<Id, Entry>, e2: map<Id, Entry>, id: Id)
    requires Promoting(e0, e1) && id in e1 && e1[id].place == IMMEDIATE
    requires id in e2 && e2 == e1[id := e2[id]] && e2[id] == e1[id].(place := READY)
    ensures Promoting(e0, e2)
  {
    forall x | x in e2
      ensures PromotedAt(e0[x], e2[x])
    {
      assert PromotedAt(e0[x], e1[x]);
    }
  }

  lemma Collected(e0: map<Id, Entry>, e1: map<Id, Entry>, e2: map<Id, Entry>, target: nat)
    requires Promoted(e0, e1) && Swept(e1, e2, target) && Later(e2, target)
    requires forall id :: id in e0 ==> 0 <= e0[id].place <= IMMEDIATE
    ensures Readies(e2) == DueSet(e0, target) && e2.Keys == e0.Keys
    ensures forall id :: id in e2 ==>
              && e2[id].deadline == e0[id].deadline && e2[id].tick == e0[id].tick
              && e2[id].place != NOWHERE && e2[id].place != IMMEDIATE
    ensures forall id :: id in e2 && e2[id].place == READY ==> e0[id].place == IMMEDIATE || e0[id].tick <= target
  {
    forall id | id in e2
      ensures
        && e2[id].deadline == e0[id].deadline && e2[id].tick == e0[id].tick && e2[id].place != NOWHERE
        && e2[id].place != IMMEDIATE
      ensures e2[id].place == READY <==> Due(e0[id], target)
    {
      assert PromotedAt(e0[id], e1[id]) && SweptAt(e1[id], e2[id], target);
    }
  }

  lemma Unmoved(lists: seq<seq<Id>>, entries: map<Id, Entry>, c: nat, d: nat, nextTick: nat)
    requires Filed(lists, entries) && Timely(entries, c, -1) && Cached(lists, c, nextTick) && c <= d
    requires nextTick > d || forall b :: 0 <= b < BUCKETS ==> lists[b] == []
    ensures Timely(entries, d, -1) && Cached(lists, d, nextTick)
  {
    hide Placed, Boundary, High;
    forall id | id in entries && 0 <= entries[id].place < BUCKETS
      ensures Placed(entries[id].tick, d, entries[id].place / 256, entries[id].place % 256)
      ensures Boundary(d, entries[id].place / 256, entries[id].place % 256) ==
                Boundary(c, entries[id].place / 256, entries[id].place % 256)
    {
      var b := entries[id].place;
      assert FiledAt(lists[b], entries, b);
      assert id in lists[b];
      PlacedStays(entries[id].tick, c, d, b / 256, b % 256);
    }
    forall x | 0 <= x < BUCKETS && lists[x] != []
      ensures nextTick <= Boundary(d, x / 256, x % 256)
    {
      FiledHead(lists, entries, x);
    }
  }

  lemma SameNumber(e0: map<Id, Entry>, e: map<Id, Entry>)
    requires e.Keys == e0.Keys
    ensures |e| == |e0|
  {
  }

  lemma StillKnown(e0: map<Id, Entry>, e1: map<Id, Entry>, target: nat, now: nat)
    requires DueKnown(e0, target, now) && Promoted(e0, e1)
    ensures DueKnown(e1, target, now)
  {
    forall id | id in e1 && e1[id].tick <= target
      ensures e1[id].deadline <= now
    {
      assert PromotedAt(e0[id], e1[id]);
    }
  }
}
