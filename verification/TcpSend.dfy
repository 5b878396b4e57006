/** Send side of one TCP stream: admission, slicing, acknowledgements, recovery
    and FIN placement (pro-stack/tcp.c). */
module TcpSend {
  import opened Serial
  import opened Octets
  import opened SackRanges
  import opened SackLoss
  import opened Sack
  import opened SendBuffer

  const HIGH_WATER := 65536

  datatype Status = Established | CloseWait | FinWait1 | FinWait2 | Closing | LastAck | TimeWait | Closed

  /** The stream so far: what the application handed over, what the peer has
      acknowledged, what was sent, and whether the FIN was. */
  datatype Ledger = Ledger(origin: int, accepted: seq<byte>, una: int, nxt: int, fin: bool) {
    ghost function End(): int { origin + |accepted| }

    /** The payload sent so far ends here; a FIN does not count. */
    ghost function Flight(): int { if nxt < End() then nxt else End() }

    ghost function Head(): int { if una < End() then una else End() }

    /** `data` is what the application wrote at position `pos`. */
    ghost predicate Slice(pos: int, data: seq<byte>) {
      origin <= pos && pos + |data| <= End() && data == accepted[pos - origin..pos - origin + |data|]
    }

    ghost predicate Ordered() {
      origin <= una <= nxt <= End() + (if fin then 1 else 0) && (fin ==> nxt == End() + 1)
    }
  }

  /** What the environment grants a transmission: a resolved next hop, room to queue it. */
  datatype Net = Net(resolved: bool, enqueued: bool)

  /** States in which buffered data still goes out. */
  predicate Draining(status: Status) { Open(status) || status == FinWait1 || status == Closing || status == LastAck }

  predicate Open(status: Status) { status == Established || status == CloseWait }

  /** One segment as it goes out. */
  datatype Emission = Emission(sq: u32, data: seq<byte>, fin: bool)

  /** Nothing, or one segment. */
  datatype Output = Silent | Sent(segment: Emission)

  /** What an accepted ACK for `a` means to the scoreboard: the SACKED octets are those still
      above it and, when its blocks are merged, those they report. */
  ghost predicate Learned(was: seq<Span>, now: seq<Span>, ack: u32, blocks: seq<Block>, merged: bool, a: int, hd: int) {
    if merged then
      forall p :: In(now, p) <==>
        || (In(was, p) && a <= p)
        || Reported(blocks, if IsDsack(blocks, ack) then 1 else 0, if |blocks| < 4 then |blocks| else 4, a, hd, p)
    else
      forall p :: In(now, p) ==> In(was, p) && a <= p
  }

  /** Something is SACKED that was not. */
  ghost predicate Newer(was: seq<Span>, now: seq<Span>) {
    exists p :: In(now, p) && !In(was, p)
  }

  /** How recovery, in state `was` once the ACK for `u` is merged, answers it.  `news` says that
      something new was SACKED, `retry` that an RTO episode is to look for a hole. */
  ghost predicate Answered(was: Recovery, wasLog: Log, now: Recovery, log: Log, at: seq<Span>, rat: seq<Span>,
                           hd: int, u: int, smss: nat, permitted: bool, repeated: bool, news: bool, retry: bool) {
    var dups := was.dupAcks + 1;
    var pipe := Pipe(at, rat, log.hr, hd, smss, u, hd);
    if was.mode == Normal && permitted && news then
      && now.pipe == pipe
      && if dups >= DUP_THRESH || Judged(at, u, hd, smss) then Opened(now, log, SackRecovery, dups, u, hd, smss)
         else now == was.(dupAcks := dups, limited := true, pipe := now.pipe) && log == wasLog
    else if was.mode == Normal && !permitted && repeated then
      if dups >= DUP_THRESH then Opened(now, log, NewReno, dups, u, hd, smss)
      else now == was.(dupAcks := dups) && log == wasLog
    else if was.mode == RtoRecovery && was.pending == NONE && retry then
      && now == was.(pending := now.pending) && log == wasLog.(ps := log.ps, pe := log.pe)
      && LowHole(at, now.pending, log.ps, log.pe, smss, u, hd)
    else
      && now == was.(pipe := now.pipe) && log == wasLog
      && now.pipe == if was.mode == SackRecovery then pipe else was.pipe
  }

  /** What an acceptable ACK for `u` does to loss recovery.  An episode ends at RecoveryPoint, or when
      a node is refused.  Outside one, new SACK information starts SACK recovery at the third ACK that
      brings it or once the first octet is lost, and allows Limited Transmit before that; without SACK
      the third duplicate starts NewReno recovery.  Any episode starts with the first segment. */
  ghost predicate Reacted(was: Recovery, wasLog: Log, now: Recovery, log: Log, at: seq<Span>, rat: seq<Span>,
                          hd: int, u: int, smss: nat, permitted: bool, classic: bool, progressed: bool, news: bool,
                          failed: bool, degraded: bool) {
    var over := was.mode == Normal || u >= wasLog.rp || failed;
    var dups := if progressed || failed then 0 else was.dupAcks;
    var pipe := Pipe(at, rat, log.hr, hd, smss, u, hd);
    if over && permitted && news then
      && now.pipe == pipe
      && if dups + 1 >= DUP_THRESH || Judged(at, u, hd, smss) then
           Opened(now, log, SackRecovery, dups + 1, u, hd, smss)
         else now.mode == Normal && now.limited && now.dupAcks == dups + 1
    else if over && !permitted && classic && !progressed && u < hd then
      if dups + 1 >= DUP_THRESH then Opened(now, log, NewReno, dups + 1, u, hd, smss)
      else now == was.(dupAcks := dups + 1)
    else if over then
      && now.mode == Normal && now.dupAcks == dups
      && now.limited == (was.limited && !failed && was.mode in {Normal, NewReno})
    else
      && now == was.(dupAcks := dups, pending := now.pending, pipe := now.pipe)
      && now.pipe == (if was.mode == SackRecovery then pipe else was.pipe)
      && log == wasLog.(ps := log.ps, pe := log.pe)
      && if was.mode == NewReno && progressed then now.pending == Foremost(u, hd, smss)
         else if was.mode == RtoRecovery && (progressed || news) && !degraded && Left(was, wasLog, hd, u) == NONE then
           LowHole(at, now.pending, log.ps, log.pe, smss, u, hd)
         else now.pending == Left(was, wasLog, hd, u) && log == wasLog
  }

  /** Recovery settled by the ACK, with the duplicates it leaves, answers as promised. */
  lemma Reacting(was: Recovery, wasLog: Log, mid: Recovery, midLog: Log, now: Recovery, log: Log, at: seq<Span>,
                 rat: seq<Span>, hd: int, u: int, smss: nat, permitted: bool, classic: bool, progressed: bool,
                 news: bool, failed: bool, degraded: bool)
    requires mid == Dropped(was, wasLog, hd, u, smss, progressed, failed)
    requires midLog == if mid.mode == NewReno && progressed then wasLog.(ps := u, pe := Min(u + smss, hd)) else wasLog
    requires Answered(mid, midLog, now, log, at, rat, hd, u, smss, permitted, !progressed && classic && u < hd, news,
                      (progressed || news) && !degraded)
    requires was.mode != Normal && u >= wasLog.rp ==> progressed
    requires (was.pending != NONE ==> was.mode != Normal) && (failed ==> permitted)
    ensures Reacted(was, wasLog, now, log, at, rat, hd, u, smss, permitted, classic, progressed, news, failed, degraded)
  {
    hide Judged, Pipe, LowHole, Wrap;
  }

  /** Recovery once the ACK is merged and NewReno settled: progress clears the duplicates. */
  ghost function Dropped(was: Recovery, log: Log, hd: int, u: int, smss: nat, progressed: bool, failed: bool): Recovery
  {
    var r := Settled(was, log, hd, u, failed);
    var s := if r.mode != NewReno || !progressed then r
             else if u >= log.rp then r.(mode := Normal, dupAcks := 0, pending := NONE)
             else r.(pending := Foremost(u, hd, smss));
    if progressed then s.(dupAcks := 0) else s
  }

  class Sender {
    const buf: Buffer
    const sack: Scoreboard
    var sndUna: u32
    var sentSeq: u32
    var status: Status
    var finDeferred: bool
    ghost var g: Ledger

    constructor (start: u32)
      ensures Valid() && g == Ledger(start, [], start, start, false) && status == Established
      ensures fresh(buf) && fresh(sack) && buf.len == 0 && sack.at == [] && sack.rat == [] && sack.sane
      ensures sack.rec.mode == Normal && !sack.degraded && !sack.rec.limited && buf.denied == sack.denied == 0
    {
      hide Scoreboard.Valid, Content;
      buf := new Buffer(start);
      sack := new Scoreboard(start);
      sndUna, sentSeq, status, finDeferred := start, start, Established, false;
      g := Ledger(start, [], start, start, false);
    }

    /** The buffer holds exactly the accepted bytes that are not acknowledged, and
        the numbers agree with the ledger. */
    ghost predicate Books()
      reads this, buf
    {
      && buf.Valid() && g.Ordered() && sndUna == Wrap(g.una) && sentSeq == Wrap(g.nxt)
      && buf.head == g.Head() && buf.Bytes() == g.accepted[g.Head() - g.origin..]
      && buf.len <= HIGH_WATER && buf.unacked == g.Flight() - g.Head()
      && (g.fin ==> !Open(status)) && (finDeferred ==> !Open(status) && !g.fin)
    }

    /** The books hold whatever the peer reports; the scoreboard is exact while it is sane. */
    ghost predicate Valid()
      reads this, buf, sack
    {
      Books() && sack.Valid(g.una) && sack.hd == g.Flight()
    }

    /** `tcp_send`: a prefix is accepted at the end of the stream, or nothing. */
    method Send(data: seq<byte>, sndWnd: nat, wndValid: bool) returns (n: int)
      requires Valid()
      modifies this`g, buf
      ensures Valid() && -1 <= n <= |data|
      ensures g == old(g).(accepted := old(g).accepted + if n > 0 then data[..n] else [])
      ensures n > 0 ==> status in {Established, CloseWait} && (wndValid ==> g.End() - g.una <= sndWnd)
      ensures buf.denied == old(buf.denied) ==>
                var space := Minus(if wndValid then Least(sndWnd, HIGH_WATER) else HIGH_WATER, old(buf.len));
                n == if data == [] then 0 else if status !in {Established, CloseWait} || space == 0 then -1
                     else Least(|data|, space)
    {
      hide Scoreboard.Valid, Buffer.Valid, Content, Wrap;
      if data == [] {
        return 0;
      }
      if !Open(status) {
        return -1;
      }
      var limit := if wndValid && sndWnd < HIGH_WATER then sndWnd else HIGH_WATER;
      var space := if buf.len >= limit then 0 else limit - buf.len;
      if space == 0 {
        return -1;
      }
      n := Queue(if |data| < space then data else data[..space]);
    }

    /** Accepted bytes join the end of the buffer and of the stream. */
    method Queue(part: seq<byte>) returns (n: int)
      requires Valid() && Open(status) && part != [] && buf.len + |part| <= HIGH_WATER
      modifies this`g, buf
      ensures Valid() && (n == -1 || 0 < n <= |part|) && (n == |part| <==> buf.denied == old(buf.denied))
      ensures g == old(g).(accepted := old(g).accepted + if n > 0 then part[..n] else [])
      ensures n > 0 ==> g.End() - g.una == buf.len == old(buf.len) + n
    {
      hide Scoreboard.Valid, Content, Wrap;
      n := buf.Append(part);
      if n > 0 {
        GrowTail(g, part[..n]);
        g := g.(accepted := g.accepted + part[..n]);
      }
    }

    lemma GrowTail(was: Ledger, more: seq<byte>)
      requires was.Ordered() && !was.fin
      ensures
        var now := was.(accepted := was.accepted + more);
        && now.Ordered() && now.Head() == was.una && now.Flight() == was.nxt
        && was.Head() == was.una && was.Flight() == was.nxt
        && now.accepted[now.Head() - now.origin..] == was.accepted[was.Head() - was.origin..] + more
    {
    }

    /** `tcp_sack_payload_flight_end` */
    function FlightEnd(): u32
      reads this, buf
    {
      var bufferEnd := Add32(buf.headSeq, buf.len);
      if Lt(sentSeq, bufferEnd) then sentSeq else bufferEnd
    }

    lemma Ends()
      requires Books()
      ensures FlightEnd() == Wrap(g.Flight()) && Add32(buf.headSeq, buf.len) == Wrap(g.End())
      ensures Lt(sentSeq, Add32(buf.headSeq, buf.len)) <==> g.nxt < g.End()
      ensures g.nxt < g.End() ==> Sub32(Add32(buf.headSeq, buf.len), sentSeq) == g.End() - g.nxt
      ensures buf.len == g.End() - g.Head()
    {
      AddWrap(buf.head, buf.len);
      SerialOrder(g.nxt, g.End());
      SerialOrder(g.End(), g.nxt);
    }

    /** Payload leaves at SND.NXT. */
    method Emit(size: nat)
      requires Books() && 0 < size <= g.End() - g.nxt
      modifies this`sentSeq, this`g, buf`unacked
      ensures Books() && g == old(g).(nxt := old(g).nxt + size)
    {
      hide Wrap, Add32, Content;
      AddWrap(g.nxt, size);
      sentSeq := Add32(sentSeq, size);
      buf.unacked := buf.unacked + size;
      g := g.(nxt := g.nxt + size);
    }

    /** New data leaves the lists, the mode and the episode alone. */
    twostate predicate Steady()
      reads sack
    {
      && sack.at == old(sack.at) && sack.rat == old(sack.rat) && sack.sane == old(sack.sane)
      && sack.degraded == old(sack.degraded) && sack.denied == old(sack.denied) && sack.log == old(sack.log)
      && sack.rec.mode == old(sack.rec.mode) && (sack.rec.limited ==> old(sack.rec.limited))
    }

    /** HighData follows, whether or not NextSeg asked for new data. */
    method NoteSent(ghost u: int, ghost e: int)
      requires sack.Valid(u) && sentSeq == Wrap(e) && u <= sack.hd < e <= u + MAX_FLIGHT
      modifies sack
      ensures sack.Valid(u) && sack.hd == e && Steady() && !sack.rec.limited
    {
      hide Scoreboard.Running, Wrap, Brief;
      if sack.rec.pending.kind == NewData {
        sack.CommitNew(sentSeq, u, e);
      } else {
        sack.Extend(sentSeq, u, e);
      }
      sack.SetLimited(false, u);
    }

    /** Credit is counted from Pipe, not from SND.NXT. */
    predicate Piped()
      reads this, sack
    {
      sack.rec.mode == SackRecovery || sack.rec.limited
    }

    lemma InFlight()
      requires Books()
      ensures Sub32(sentSeq, sndUna) == g.nxt - g.una
    {
      SubWrap(g.nxt, g.una);
      SmallWrap(g.nxt - g.una);
    }

    /** What counts as in flight: Pipe in recovery and under Limited Transmit, else all
        that is not acknowledged. */
    ghost function Load(smss: nat): nat
      requires g.Ordered()
      reads this, sack
    {
      if Piped() then Pipe(sack.at, sack.rat, sack.log.hr, sack.hd, Smss(smss), g.una, sack.hd) else g.nxt - g.una
    }

    /** Load is known: Pipe is only as good as the scoreboard. */
    ghost predicate Counted()
      reads this, sack
    {
      sack.sane || !Piped()
    }

    /** The next segment before any window cuts it: the data, the chunk, the candidate, the segment size. */
    ghost function Wanted(mss: nat): nat
      requires Books() && g.nxt < g.End()
      reads this, buf, sack
    {
      Capped(Least(Least(g.End() - g.nxt, Rest(buf.chunks, g.nxt - buf.head)), mss))
    }

    /** A pending candidate for new data bounds the segment. */
    ghost function Capped(n: nat): nat
      reads this, sack
    {
      var c := sack.rec.pending;
      if c.kind == NewData && c.sq == sentSeq then Least(n, Sub32(c.end, sentSeq)) else n
    }

    /** Nagle's rule holds a short segment back. */
    ghost predicate Held(mss: nat, nodelay: bool, appClosed: bool)
      reads this, sack
    {
      !nodelay && g.una != g.nxt && g.End() - g.nxt < mss && !appClosed && sack.rec.pending.kind != NewData
    }

    /** How much goes out next when `load` counts as in flight. */
    ghost function Quota(sndWnd: nat, cwnd: nat, load: nat, mss: nat, nodelay: bool, appClosed: bool): nat
      requires Books()
      reads this, buf, sack
    {
      if status in {FinWait2, TimeWait, Closed} || g.nxt >= g.End() || Held(mss, nodelay, appClosed) then 0
      else Least(Wanted(mss), Minus(Least(cwnd, sndWnd), load))
    }

    /** The peer's window has room for the wanted segment, or what the load leaves out of the
        flight is covered by the gap between the two windows. */
    ghost predicate Fits(sndWnd: nat, cwnd: nat, load: nat, mss: nat)
      requires Books() && g.nxt < g.End()
      reads this, buf, sack
    {
      var flight := g.nxt - g.una;
      flight + Wanted(mss) <= sndWnd || flight - load <= Minus(sndWnd, cwnd)
    }

    /** What limits a new segment besides the data itself. */
    method Credit(sndWnd: nat, cwnd: nat, smss: nat) returns (credit: nat, ghost load: nat)
      requires Valid()
      modifies sack`rec
      ensures Valid() && sack.rec == old(sack.rec).(pipe := sack.rec.pipe)
      ensures credit == Minus(Least(cwnd, sndWnd), load) && (old(Counted()) ==> load == old(Load(smss)))
    {
      hide Scoreboard.Valid, Wrap, Content, Add32, Lt, Pipe;
      Ends();
      InFlight();
      var inFlight := Sub32(sentSeq, sndUna);
      if sack.rec.mode == SackRecovery || sack.rec.limited {
        inFlight := sack.UpdatePipe(sndUna, FlightEnd(), smss, g.una);
      }
      var window := if cwnd < sndWnd then cwnd else sndWnd;
      credit, load := Minus(window, inFlight), inFlight;
    }

    /** How much of which bytes goes out next: cut by the window, the chunk, the candidate
        and the segment size. */
    method Cut(sndWnd: nat, cwnd: nat, smss: nat, mss: nat, nodelay: bool, appClosed: bool)
      returns (payload: seq<byte>, size: nat, ghost load: nat)
      requires Valid() && Draining(status) && g.nxt < g.End()
      modifies sack`rec
      ensures Valid() && sack.rec == old(sack.rec).(pipe := sack.rec.pipe)
      ensures size <= |payload| <= g.End() - g.nxt && size <= mss && g.Slice(g.nxt, payload[..size])
      ensures
        && size == old(Quota(sndWnd, cwnd, load, mss, nodelay, appClosed))
        && (old(Counted()) ==> load == old(Load(smss)))
      ensures size > 0 ==>
                load + size <= Least(cwnd, sndWnd) &&
                  (g.nxt + size - g.una <= sndWnd <==> old(Fits(sndWnd, cwnd, load, mss)))
    {
      hide Scoreboard.Valid, Wrap, Content, Add32, Lt, Sub32, Pipe, Rest, Fits, Load, Wanted;
      Fitting(sndWnd, cwnd, mss);
      SerialNear();
      var unsent;
      payload, unsent, size, load := Offer(sndWnd, cwnd, smss, mss);
      if !nodelay && sndUna != sentSeq && unsent < mss && !appClosed && sack.rec.pending.kind != NewData {
        size := 0;
      }
      SliceAt(payload, g.nxt, size);
    }

    /** The same before Nagle's rule. */
    method Offer(sndWnd: nat, cwnd: nat, smss: nat, mss: nat)
      returns (payload: seq<byte>, unsent: nat, size: nat, ghost load: nat)
      requires Valid() && g.nxt < g.End()
      modifies sack`rec
      ensures Valid() && sack.rec == old(sack.rec).(pipe := sack.rec.pipe) && unsent == g.End() - g.nxt
      ensures size == Least(old(Wanted(mss)), Minus(Least(cwnd, sndWnd), load)) && size <= |payload| && size <= mss
      ensures
        && buf.head <= g.nxt && |payload| <= buf.head + buf.len - g.nxt
        && payload == buf.Bytes()[g.nxt - buf.head..g.nxt - buf.head + |payload|]
      ensures old(Counted()) ==> load == old(Load(smss))
    {
      hide Scoreboard.Valid, Wrap, Content, Add32, Lt, Sub32, Pipe, Rest, Open, Load;
      Ends();
      unsent := Sub32(Add32(buf.headSeq, buf.len), sentSeq);
      payload := buf.Peek(sentSeq, g.nxt);
      var credit;
      credit, load := Credit(sndWnd, cwnd, smss);
      size := Size(unsent, credit, |payload|, mss);
    }

    /** What the credit lets through stays inside the peer's window exactly if it fits. */
    lemma Fitting(sndWnd: nat, cwnd: nat, mss: nat)
      requires Books() && g.nxt < g.End()
      ensures forall load: nat ::
                var n := Least(Wanted(mss), Minus(Least(cwnd, sndWnd), load));
                n > 0 ==> (g.nxt + n - g.una <= sndWnd <==> Fits(sndWnd, cwnd, load, mss))
    {
      hide Wanted, Wrap, Content;
    }

    /** No segment could be longer: it is of full size, or ends with the data, the credit, the chunk
        or the candidate for new data. */
    ghost predicate Brimful(n: nat, sndWnd: nat, cwnd: nat, load: nat, mss: nat)
      requires Books() && g.nxt < g.End()
      reads this, buf, sack
    {
      var c := sack.rec.pending;
      || n == mss || g.nxt + n == g.End() || load + n >= Least(cwnd, sndWnd)
      || (n > 0 && n == Rest(buf.chunks, g.nxt - buf.head))
      || (n > 0 && c.kind == NewData && c.sq == sentSeq && n == Sub32(c.end, c.sq))
    }

    lemma Fullness(sndWnd: nat, cwnd: nat, mss: nat)
      requires Valid() && g.nxt < g.End()
      ensures forall load: nat :: Brimful(Least(Wanted(mss), Minus(Least(cwnd, sndWnd), load)), sndWnd, cwnd, load, mss)
    {
      hide Scoreboard.Running, Wrap, Content, Sub32, Rest;
      if mss > 0 { Room(mss); }
    }

    /** The rules in their own terms. */
    lemma Terms(smss: nat, mss: nat, nodelay: bool, appClosed: bool)
      requires Books()
      ensures Held(mss, nodelay, appClosed) <==>
                && !nodelay && !appClosed && g.una < g.nxt && g.End() - g.nxt < mss && sack.rec.pending.kind != NewData
      ensures sack.rec.mode != SackRecovery && !sack.rec.limited ==> Load(smss) == g.nxt - g.una && Counted()
      ensures sack.rec.mode == SackRecovery || sack.rec.limited ==>
                && Load(smss) == Pipe(sack.at, sack.rat, sack.log.hr, sack.hd, Smss(smss), g.una, sack.hd)
                && Counted() == sack.sane
      ensures g.nxt < g.End() && sack.rec.pending.kind == NewData && sack.rec.pending.sq == sentSeq ==>
                Wanted(mss) <= Sub32(sack.rec.pending.end, sentSeq)
    {
      hide Pipe, Wrap, Content, Sub32;
    }

    /** Unless the segment size is zero, some of the unsent data is wanted. */
    lemma Room(mss: nat)
      requires Valid() && g.nxt < g.End() && mss > 0
      ensures Wanted(mss) > 0
    {
      hide Scoreboard.Running, Wrap, Sub32;
      RestPositive(buf.chunks, g.nxt - buf.head);
    }

    lemma NothingLeft()
      requires Valid() && sack.sane && sack.Blank()
      ensures sack.at == []
    {
    }

    lemma Parts()
      requires Valid()
      ensures Books() && sack.hd == g.Flight()
    {
    }

    /** Outside recovery and Limited Transmit everything unacknowledged counts. */
    lemma Unpiped(smss: nat)
      requires g.Ordered() && !Piped()
      ensures Load(smss) == g.nxt - g.una
    {
    }

    /** One SACKED octet, and no retransmission, makes Pipe less than the flight. */
    lemma Discount(smss: nat, p: int)
      requires g.Ordered() && Piped() && sack.hd == g.nxt && g.una <= p < g.nxt && In(sack.at, p)
      requires forall q :: !In(sack.rat, q)
      ensures Load(smss) < g.nxt - g.una
    {
      hide In, Pipe, Count;
      InNone();
      CountGrows(sack.at, [], p, g.una, g.nxt);
      PipeUnmarked(sack.at, sack.rat, sack.log.hr, sack.hd, Smss(smss), g.una, sack.hd);
    }

    /** Four thousand octets leave under a congestion window of that size. */
    method FillWindow()
      requires Valid() && status == Established && !Piped() && sack.sane && g.una == g.nxt == 0 && g.End() == 5000
      modifies this`sentSeq, this`g, buf`unacked, sack
      ensures Valid() && Steady() && g == old(g).(nxt := 4000)
    {
      hide Valid, Load, Wanted, Fits;
      Parts();
      InFlight();
      while Sub32(sentSeq, sndUna) < 4000
        invariant Valid() && Books() && Steady() && g == old(g).(nxt := g.nxt) && 0 <= g.nxt <= 4000
        invariant Sub32(sentSeq, sndUna) == g.nxt
        decreases 4000 - g.nxt
      {
        Room(1000);
        Unpiped(1000);
        var _, _, _ := FlushNew(8000, 4000, 1000, 1000, true, false, Net(true, true));
        Parts();
        InFlight();
      }
    }

    /** The last thousand octets are reported. */
    method TakeTail() returns (ready: bool)
      requires Valid() && g.una == 0 && g.nxt == 4000 && g.End() == 5000 && sack.at == sack.rat == [] && sack.sane
      requires sack.rec.mode == Normal && !sack.degraded
      modifies this`sndUna, this`g, buf, sack
      ensures Valid() && g == old(g) && (sack.denied == old(sack.denied) ==> ready)
      ensures ready ==> sack.sane && Piped() && In(sack.at, 3000) && forall q :: !In(sack.rat, q)
    {
      hide Valid, In, Learned, AllSane, Newer;
      Parts();
      InNone();
      TailBlock();
      var _ := ProcessAck(0, [TAIL], true, false, 1000, 0);
      ready := !sack.degraded;
      if ready { TailLearned(sack.at); }
    }

    /** The least of everything that limits a segment. */
    method Size(unsent: nat, credit: nat, chunk: nat, mss: nat) returns (size: nat)
      ensures size == Least(Capped(Least(Least(unsent, chunk), mss)), credit) && size <= chunk && size <= mss
    {
      size := Least(Least(unsent, credit), chunk);
      if sack.rec.pending.kind == NewData && sack.rec.pending.sq == sentSeq {
        size := Least(size, Sub32(sack.rec.pending.end, sentSeq));
      }
      size := Least(size, mss);
    }

    /** `tcp_tx_flush_sndbuf`: the next unsent bytes, as many as the windows, the chunk, the
        candidate and the segment size allow, and inside the peer's window exactly when they fit. */
    method FlushNew(sndWnd: nat, cwnd: nat, smss: nat, mss: nat, nodelay: bool, appClosed: bool, net: Net)
      returns (out: Output, ghost pos: int, ghost load: nat)
      requires Valid()
      modifies this`sentSeq, this`g, buf`unacked, sack
      ensures Valid() && Steady() && (out == Silent ==> g == old(g))
      ensures out.Sent? ==>
                && pos == old(g).nxt && out.segment == Emission(Wrap(pos), out.segment.data, false)
                && 0 < |out.segment.data| <= mss
                && old(g).Slice(pos, out.segment.data) && g == old(g).(nxt := pos + |out.segment.data|)
      ensures
        var n := old(Quota(sndWnd, cwnd, load, mss, nodelay, appClosed));
        && (out.Sent? <==> net == Net(true, true) && n > 0)
        && (out.Sent? ==> |out.segment.data| == n && load + n <= Least(cwnd, sndWnd))
      ensures out.Sent? ==> (g.nxt - g.una <= sndWnd <==> old(Fits(sndWnd, cwnd, load, mss)))
      ensures old(Counted()) ==> load == old(Load(smss))
      ensures
        var n := if out.Sent? then |out.segment.data| else 0;
        var short := old(g.una < g.nxt && g.End() - g.nxt < mss && sack.rec.pending.kind != NewData);
        && (short && !nodelay && !appClosed ==> out == Silent)
        && (old(g.nxt < g.End()) && net == Net(true, true) && status !in {FinWait2, TimeWait, Closed} ==>
              (short && !nodelay && !appClosed) || old(Brimful(n, sndWnd, cwnd, load, mss)))
      ensures
        var c := old(sack.rec.pending);
        out.Sent? && c.kind == NewData && c.sq == Wrap(pos) ==> |out.segment.data| <= Sub32(c.end, c.sq)
      ensures old(sack.rec.mode != SackRecovery && !sack.rec.limited) ==> load == old(g).nxt - old(g).una
      ensures old(sack.rec.mode == SackRecovery || sack.rec.limited) && old(sack.sane) ==>
                load == old(Pipe(sack.at, sack.rat, sack.log.hr, sack.hd, Smss(smss), g.una, sack.hd))
    {
      Parts();
      Terms(smss, mss, nodelay, appClosed);
      if g.nxt < g.End() { Fullness(sndWnd, cwnd, mss); }
      hide Valid, Books, Wrap, Sub32, Load, Fits, Held, Wanted, Brimful, Pipe, Counted, Steady, Ledger.Slice;
      out, pos, load := PushNew(sndWnd, cwnd, smss, mss, nodelay, appClosed, net);
    }

    /** The same, in terms of the load and of what is wanted. */
    method PushNew(sndWnd: nat, cwnd: nat, smss: nat, mss: nat, nodelay: bool, appClosed: bool, net: Net)
      returns (out: Output, ghost pos: int, ghost load: nat)
      requires Valid()
      modifies this`sentSeq, this`g, buf`unacked, sack
      ensures Valid() && Steady() && (out == Silent ==> g == old(g))
      ensures out.Sent? ==>
                && pos == old(g).nxt && out.segment == Emission(Wrap(pos), out.segment.data, false)
                && 0 < |out.segment.data| <= mss
                && old(g).Slice(pos, out.segment.data) && g == old(g).(nxt := pos + |out.segment.data|)
      ensures
        var n := old(Quota(sndWnd, cwnd, load, mss, nodelay, appClosed));
        && (out.Sent? <==> net == Net(true, true) && n > 0)
        && (out.Sent? ==> |out.segment.data| == n && load + n <= Least(cwnd, sndWnd))
      ensures out.Sent? ==> (g.nxt - g.una <= sndWnd <==> old(Fits(sndWnd, cwnd, load, mss)))
      ensures old(Counted()) ==> load == old(Load(smss))
    {
      hide Scoreboard.Valid, Wrap, Content, Add32, Lt, Load, Wanted, Fits, Held;
      out, pos, load := Silent, g.nxt, Load(smss);
      Ends();
      if !Draining(status) || buf.len == 0 || !Lt(sentSeq, Add32(buf.headSeq, buf.len)) {
        return;
      }
      var payload, size;
      payload, size, load := Cut(sndWnd, cwnd, smss, mss, nodelay, appClosed);
      if size == 0 || !net.resolved || !net.enqueued {
        return;
      }
      var first := sentSeq;
      RoomLeft(size);
      Emit(size);
      NoteSent(g.una, g.nxt);
      out := Sent(Emission(first, payload[..size], false));
    }

    lemma RoomLeft(size: nat)
      requires Valid() && size <= g.End() - g.nxt
      ensures g.nxt + size <= g.una + MAX_FLIGHT
      ensures g.una <= sack.hd && (g.nxt < g.End() ==> sack.hd == g.nxt)
    {
    }

    /** What the recovery path is asked to send: the pending choice, else what NextSeg says when
        Pipe leaves the congestion window room for a segment. */
    ghost predicate Asks(cwnd: nat, smss: nat, c: Candidate, ps: int, pe: int)
      requires Books()
      reads this, buf, sack
    {
      if sack.rec.pending != NONE || sack.rec.mode != SackRecovery || sack.degraded then c == sack.rec.pending
      else if cwnd - Pipe(sack.at, sack.rat, sack.log.hr, sack.hd, Smss(smss), g.una, sack.hd) < smss then c == NONE
      else
        NextSegOf(sack.at, if sack.log.hr > g.una then sack.log.hr else g.una, g.una, sack.hd,
                  if g.nxt < g.End() then g.End() else sack.hd, sack.log.rescues == 0, Smss(smss), c != NONE, c, ps, pe)
    }

    /** Ask NextSeg for a candidate when Pipe leaves room for a segment. */
    method Nominate(cwnd: nat, smss: nat)
      requires Valid() && smss < 0x10000
      modifies sack`rec, sack`log
      ensures Valid() && sack.rec == old(sack.rec).(pending := sack.rec.pending, pipe := sack.rec.pipe)
      ensures sack.log == old(sack.log).(ps := sack.log.ps, pe := sack.log.pe)
      ensures old(sack.rec).pending != NONE || sack.rec.mode != SackRecovery ==>
                sack.rec == old(sack.rec) && sack.log == old(sack.log)
      ensures
        var c, ps, pe := sack.rec.pending, sack.log.ps, sack.log.pe;
        sack.sane ==> old(Asks(cwnd, smss, c, ps, pe))
    {
      hide Scoreboard.Valid, Wrap, Content, Add32, Lt, Sub32, NextSegOf, Selected, Pipe;
      Ends();
      BufferNear();
      PendingKind();
      if sack.rec.pending.kind == Nothing && sack.rec.mode == SackRecovery {
        var pipe := sack.UpdatePipe(sndUna, FlightEnd(), smss, g.una);
        if cwnd >= pipe && cwnd - pipe >= smss {
          var bufEnd := Add32(buf.headSeq, buf.len);
          var _ := sack.ScheduleNext(bufEnd, Lt(sentSeq, bufEnd), sndUna, smss, g.una, g.End());
        }
      }
    }

    lemma PendingKind()
      requires Valid()
      ensures sack.rec.pending.kind == Nothing <==> sack.rec.pending == NONE
    {
      hide Scoreboard.Running, Sub32;
    }

    lemma BufferNear()
      requires Books()
      ensures g.Flight() <= g.End() <= g.una + HIGH_WATER
    {
    }

    /** A pending retransmission names buffered bytes that were sent. */
    ghost predicate Repeatable(c: Candidate)
      reads buf
    {
      c.kind == Retransmit && Sub32(c.sq, buf.headSeq) + Sub32(c.end, c.sq) <= buf.unacked
    }

    /** How much of a choice one segment carries: cut by the segment size and the chunk. */
    ghost function Portion(c: Candidate, mss: nat): nat
      requires buf.Valid()
      reads this, buf
    {
      Least(Least(Sub32(c.end, c.sq), mss), Rest(buf.chunks, Sub32(c.sq, buf.headSeq)))
    }

    /** `tcp_tx_flush_recovery_retransmit`: bytes the peer still misses, cut from
        the buffer; SND.NXT stays. */
    method FlushRecovery(cwnd: nat, smss: nat, mss: nat, net: Net)
      returns (out: Output, ghost pos: int, ghost asked: Candidate)
      requires Valid() && smss < 0x10000
      modifies sack
      ensures Valid() && sack.sane == old(sack.sane) && (sack.at == old(sack.at) || sack.at == [])
      ensures out.Sent? ==>
                && out.segment == Emission(Wrap(pos), out.segment.data, false) && 0 < |out.segment.data| <= mss
                && g.Slice(pos, out.segment.data) && g.una <= pos && pos + |out.segment.data| <= g.nxt
      ensures out.Sent? <==> net == Net(true, true) && mss > 0 && Repeatable(asked)
      ensures out.Sent? ==> out.segment.sq == asked.sq && |out.segment.data| == Portion(asked, mss)
      ensures old(sack.rec.pending) != NONE ==> asked == old(sack.rec.pending)
      ensures
        var ps, pe := sack.log.ps, sack.log.pe;
        sack.sane ==> old(Asks(cwnd, smss, asked, ps, pe))
      ensures sack.rec.pending == if Done(asked, out, mss, net) then NONE else asked
      ensures sack.sane && out.Sent? ==> Repeated(old(sack.rat), old(sack.log), old(sack.denied), asked, pos,
                                                  pos + |out.segment.data|)
    {
      hide Scoreboard.Valid, Wrap, Asks, Repeatable, In;
      Nominate(cwnd, smss);
      asked := sack.rec.pending;
      PendingKind();
      out, pos := Resend(mss, net);
    }

    /** Whether a choice is disposed of: it went out, or there is nothing to send for it. */
    ghost predicate Done(c: Candidate, out: Output, mss: nat, net: Net)
      reads buf
    {
      out.Sent? || (c.kind == Retransmit && (!Repeatable(c) || (net.resolved && mss == 0)))
    }

    /** A retransmission of [pos, e) is on the books, unless its node was refused. */
    ghost predicate Repeated(rat: seq<Span>, log: Log, denied: nat, c: Candidate, pos: int, e: int)
      reads sack
    {
      sack.denied == denied ==>
        && (forall p :: In(sack.rat, p) <==> In(rat, p) || pos <= p < e)
        && sack.log.hr == (if c.rescue || e < log.hr then log.hr else e)
        && sack.log.rescues == log.rescues + if c.rescue then 1 else 0
    }

    /** Send what is pending. */
    method Resend(mss: nat, net: Net) returns (out: Output, ghost pos: int)
      requires Valid()
      modifies sack
      ensures Valid() && sack.sane == old(sack.sane) && (sack.at == old(sack.at) || sack.at == [])
      ensures out.Sent? ==>
                && out.segment == Emission(Wrap(pos), out.segment.data, false) && 0 < |out.segment.data| <= mss
                && g.Slice(pos, out.segment.data) && g.una <= pos && pos + |out.segment.data| <= g.nxt
      ensures
        var c := old(sack.rec.pending);
        && (out.Sent? <==> net == Net(true, true) && mss > 0 && Repeatable(c))
        && (out.Sent? ==> out.segment.sq == c.sq && |out.segment.data| == Portion(c, mss))
        && (sack.rec.pending == if Done(c, out, mss, net) then NONE else c)
        && sack.log.ps == old(sack.log.ps) && sack.log.pe == old(sack.log.pe)
        && (sack.sane && out.Sent? ==> Repeated(old(sack.rat), old(sack.log), old(sack.denied), c, pos,
                                                pos + |out.segment.data|))
    {
      hide Scoreboard.Valid, Wrap, Content, Add32, Lt, Gt, Sub32, Rest;
      out, pos := Silent, g.nxt;
      if sack.rec.pending.kind != Retransmit {
        return;
      }
      var sq, end := sack.rec.pending.sq, sack.rec.pending.end;
      BriefPending();
      pos := Guarded(sq, end);
      if buf.len == 0 || Lt(sq, buf.headSeq) || !Lt(sq, end) || Gt(end, FlightEnd()) {
        sack.Cancel(g.una);
        return;
      }
      var payload := buf.Peek(sq, pos);
      if payload == [] {
        sack.Cancel(g.una);
        return;
      }
      if !net.resolved {
        return;
      }
      var size := Least(Least(Sub32(end, sq), mss), |payload|);
      if size == 0 {
        sack.Cancel(g.una);
        return;
      }
      if !net.enqueued {
        return;
      }
      SliceAt(payload, pos, size);
      AddWrap(pos, size);
      Committing(pos, size);
      var _ := sack.CommitRetransmit(Add32(sq, size), g.una, pos + size);
      out := Sent(Emission(sq, payload[..size], false));
    }

    lemma BriefPending()
      requires Valid() && sack.rec.pending.kind == Retransmit
      ensures 0 < Sub32(sack.rec.pending.end, sack.rec.pending.sq) < 0x10000
    {
      hide Scoreboard.Running, Sub32;
    }

    /** Where a retransmission that passes the guards starts, and that it ends inside the flight. */
    lemma Guarded(sq: u32, end: u32) returns (pos: int)
      requires Books() && 0 < Sub32(end, sq) < 0x10000
      ensures !Lt(sq, buf.headSeq) ==>
                sq == Wrap(pos) && 0 <= pos - buf.head < HALF && pos - buf.head == Sub32(sq, buf.headSeq)
      ensures !Lt(sq, buf.headSeq) && pos < buf.head + buf.len ==>
                && Lt(sq, end) && buf.head == g.una && (Gt(end, FlightEnd()) <==> pos + Sub32(end, sq) > g.Flight())
      ensures Lt(sq, buf.headSeq) ==> Sub32(sq, buf.headSeq) >= HALF > buf.unacked
    {
      hide Content;
      Ends();
      pos := buf.head + Sub32(sq, buf.headSeq);
      Reach(buf.head, sq);
      if !Lt(sq, buf.headSeq) && pos < buf.head + buf.len {
        Reach(pos, end);
        SerialOrder(pos, pos + Sub32(end, sq));
        SerialOrder(pos + Sub32(end, sq), g.Flight());
      }
    }

    /** An exact scoreboard knows where its candidate is. */
    lemma Committing(pos: int, size: nat)
      requires
        && Valid() && sack.rec.pending.kind == Retransmit && sack.rec.pending.sq == Wrap(pos) && g.una <= pos <= g.End()
      requires size <= Sub32(sack.rec.pending.end, sack.rec.pending.sq)
      ensures sack.sane ==> sack.log.ps == pos && pos + size <= sack.log.pe
    {
      hide Scoreboard.Running, Wrap, Sub32, Content;
      BufferNear();
      if sack.sane {
        sack.PendingFacts(g.una);
        SerialOrder(sack.log.ps, pos);
        Distance(sack.log.pe, sack.log.ps);
      }
    }

    /** An exact scoreboard's retransmissions can be repeated until they are acknowledged. */
    lemma Candidacy()
      requires Valid() && sack.sane && sack.rec.pending.kind == Retransmit
      ensures sack.rec.pending.sq == Wrap(sack.log.ps) && (sack.log.ps >= g.una <==> Repeatable(sack.rec.pending))
    {
      hide Scoreboard.Running, Wrap, Content;
      sack.PendingFacts(g.una);
      Distance(sack.log.pe, sack.log.ps);
      SerialOrder(sack.log.ps, buf.head);
      if sack.log.ps >= g.una { Distance(sack.log.ps, buf.head); }
    }

    /** Bytes peeked at `pos` are bytes of the stream. */
    lemma SliceAt(payload: seq<byte>, pos: int, size: nat)
      requires Books() && size <= |payload| && buf.head <= pos && |payload| <= buf.head + buf.len - pos
      requires payload == buf.Bytes()[pos - buf.head..pos - buf.head + |payload|]
      ensures g.Slice(pos, payload[..size])
    {
      hide Content, Wrap;
      var a, k, i := g.accepted, buf.head - g.origin, pos - buf.head;
      assert a[k..][i..i + |payload|] == a[k + i..k + i + |payload|];
      assert payload[..size] == a[k + i..k + i + size];
    }

    /** The FIN takes the number after the last accepted byte. */
    method EmitFin() returns (out: Output, ghost pos: int)
      requires Valid() && !Open(status) && !g.fin && g.nxt == g.End()
      modifies this`sentSeq, this`g, this`finDeferred
      ensures
        && Valid() && pos == old(g).End() && out == Sent(Emission(Wrap(pos), [], true))
        && g == old(g).(nxt := pos + 1, fin := true)
    {
      hide Scoreboard.Valid, Wrap, Content, Add32;
      AddWrap(g.nxt, 1);
      pos := g.nxt;
      out := Sent(Emission(sentSeq, [], true));
      sentSeq := Add32(sentSeq, 1);
      finDeferred := false;
      g := g.(nxt := g.nxt + 1, fin := true);
    }

    /** `tcp_abort_stream` of a stream without unsent bytes: what is buffered is released, and
        the scoreboard forgotten. */
    method Abort()
      requires Valid() && !g.fin && g.nxt == g.End()
      modifies this`sndUna, this`g, this`status, buf, sack
      ensures Valid() && Ended()
    {
      hide Wrap, Content, Scoreboard.Running, Brief;
      Vacant(g);
      status := Closed;
      buf.Reset(sentSeq, g.nxt);
      sndUna := sentSeq;
      sack.Reset(sndUna, g.nxt);
      g := g.(una := g.nxt);
    }

    /** The stream is closed, and nothing of it is buffered. */
    twostate predicate Ended()
      reads this, buf, sack
    {
      && status == Closed && g == old(g).(una := g.nxt) && sndUna == sentSeq && buf.chunks == [] && buf.len == 0
      && sack.sane && sack.Blank() && sack.at == []
    }

    /** Nothing but the FIN and the state moved. */
    twostate predicate Unended()
      reads this, buf, sack
    {
      unchanged(buf) && unchanged(sack) && sndUna == old(sndUna) && g.una == old(g).una
    }

    lemma Vacant(g: Ledger)
      requires g.Ordered() && !g.fin && g.nxt == g.End()
      ensures
        var h := g.(una := g.nxt);
        h.Ordered() && h.Head() == h.Flight() == h.nxt && h.accepted[h.Head() - h.origin..] == []
    {
    }

    /** The deferred FIN of `tcp_tx_flush`: after every buffered byte has a number.  If it cannot
        be queued the stream is aborted. */
    method FlushFin(enqueued: bool) returns (out: Output, ghost pos: int)
      requires Valid()
      modifies this`sentSeq, this`sndUna, this`g, this`finDeferred, this`status, buf, sack
      ensures Valid()
      ensures
        var due := old(finDeferred && status in {FinWait1, Closing, LastAck} && g.nxt == g.End());
        if due && !enqueued then out == Silent && Ended()
        else (out.Sent? <==> due) && Unended() && status == old(status) && (out == Silent ==> g == old(g))
      ensures out.Sent? ==>
                && pos == old(g).End() && out == Sent(Emission(Wrap(pos), [], true))
                && g == old(g).(nxt := pos + 1, fin := true)
    {
      hide Scoreboard.Valid, Wrap, Content, Add32;
      out, pos := Silent, g.nxt;
      AllSent();
      if (status == FinWait1 || status == LastAck || status == Closing) && finDeferred &&
        sentSeq == Add32(sndUna, buf.len) {
        if enqueued {
          out, pos := EmitFin();
        } else {
          Abort();
        }
      }
    }

    lemma AllSent()
      requires Books()
      ensures !g.fin ==> (sentSeq == Add32(sndUna, buf.len) <==> g.nxt == g.End())
    {
      if !g.fin {
        AddWrap(g.una, buf.len);
        SerialOrder(g.nxt, g.End());
      }
    }

    /** `tcp_close`: the FIN goes out at once, or waits for the buffered bytes.  If it cannot be
        queued the stream is aborted. */
    method Close(enqueued: bool) returns (out: Output, ghost pos: int)
      requires Valid()
      modifies this`sentSeq, this`sndUna, this`g, this`finDeferred, this`status, buf, sack
      ensures Valid()
      ensures out.Sent? ==>
                && pos == old(g).End() && out == Sent(Emission(Wrap(pos), [], true))
                && g == old(g).(nxt := pos + 1, fin := true)
      ensures out.Sent? <==> enqueued && old(status) in {Established, CloseWait} && old(g).nxt == old(g).End()
      ensures old(status) in {Established, CloseWait} && old(g).nxt < old(g).End() ==> finDeferred
      ensures old(status) !in {Established, CloseWait} ==> finDeferred == old(finDeferred)
      ensures
        if old(status) in {Established, CloseWait} && !enqueued && old(g).nxt == old(g).End() then Ended()
        else
          && Unended() && (out == Silent ==> g == old(g))
          && status == if old(status) == Established then FinWait1 else if old(status) == CloseWait then LastAck
                       else old(status)
    {
      hide Scoreboard.Valid, Wrap, Content, Add32, Lt;
      out, pos := Silent, g.nxt;
      if !Open(status) {
        return;
      }
      Ends();
      var next := if status == Established then FinWait1 else LastAck;
      if Lt(sentSeq, Add32(buf.headSeq, buf.len)) {
        finDeferred, status := true, next;
      } else {
        if enqueued {
          status := next;
          out, pos := EmitFin();
        } else {
          Abort();
        }
      }
    }

    /** Something in flight that a timeout repeats. */
    ghost predicate Waiting()
      reads this
    {
      g.una < g.nxt && status in {Established, CloseWait, FinWait1, Closing, LastAck}
    }

    /** The retransmission timer: payload through recovery, a lone FIN again. */
    method Rto(smss: nat, enqueued: bool) returns (out: Output, ghost pos: int)
      requires Valid() && smss < 0x10000
      modifies sack
      ensures Valid() && sack.sane == old(sack.sane) && (sack.at == old(sack.at) || sack.at == [])
      ensures out.Sent? ==> pos == g.End() && g.fin && out == Sent(Emission(Wrap(pos), [], true))
      ensures Waiting() && (buf.len > 0 || status in {Established, CloseWait}) ==>
                && out == Silent && sack.rec.mode == RtoRecovery && sack.at == []
                && sack.rec.pending.kind == Retransmit && sack.rec.pending.sq == sndUna
                && (sack.sane ==> Opened(sack.rec, sack.log, RtoRecovery, 0, g.una, sack.hd, Smss(smss)))
      ensures Waiting() && buf.len == 0 && status !in {Established, CloseWait} ==> (out.Sent? <==> enqueued)
      ensures !Waiting() ==> out == Silent && sack.rec == old(sack.rec) && sack.at == old(sack.at)
    {
      hide Scoreboard.Valid, Wrap, Content, Add32, Lt;
      out, pos := Silent, g.una;
      SerialNear();
      Ends();
      if sndUna == sentSeq || status == FinWait2 || status == TimeWait || status == Closed {
        return;
      }
      if buf.len > 0 || Open(status) {
        sack.OnRto(FlightEnd(), sndUna, smss, g.una);
      } else {
        if enqueued {
          out := Sent(Emission(sndUna, [], true));
        }
      }
    }

    lemma SerialNear()
      requires Books()
      ensures sndUna == sentSeq <==> g.una == g.nxt
      ensures g.una < g.nxt && (buf.len > 0 || Open(status)) ==> g.una < g.Flight() && Lt(sndUna, Wrap(g.Flight()))
      ensures g.una < g.nxt && buf.len == 0 && !Open(status) ==> g.una == g.End() && g.fin
    {
      SerialOrder(g.una, g.nxt);
      SerialOrder(g.una, g.Flight());
    }

    /** The peer's segments move the connection state; a closed send side stays closed. */
    method Transition(next: Status)
      requires Valid() && (Open(next) ==> Open(status)) && (Open(status) ==> Open(next))
      modifies this`status
      ensures Valid() && status == next
    {
      hide Scoreboard.Valid, Wrap, Content;
      status := next;
    }

    /** Cumulative progress: acknowledged payload leaves the buffer. */
    method Advance(ack: u32, ghost a: int)
      requires Books() && ack == Wrap(a) && g.una < a <= g.nxt
      modifies this`sndUna, this`g, buf
      ensures Books() && g == old(g).(una := a)
    {
      hide Wrap, Content, Sub32, Lt, Leq, Gt, Open;
      SerialOrder(a, g.una);
      RemovedTail(g, a);
      var acked := Least(Sub32(ack, sndUna), buf.len);
      buf.Remove(acked);
      sndUna := ack;
      g := g.(una := a);
    }

    lemma RemovedTail(was: Ledger, a: int)
      requires was.Ordered() && was.una < a <= was.nxt
      ensures
        var now := was.(una := a);
        var n := now.Head() - was.Head();
        && now.Ordered() && now.Flight() == was.Flight() && 0 <= n <= was.End() - was.Head()
        && now.accepted[now.Head() - now.origin..] == was.accepted[was.Head() - was.origin..][n..]
        && n == Least(a - was.una, was.End() - was.Head())
    {
    }

    /** New SACK information outside recovery: enter it, or allow Limited Transmit. */
    method SackArrived(flightEnd: u32, smss: nat, ghost u: int)
      requires sack.Valid(u) && sack.rec.mode == Normal && sndUna == Wrap(u) && smss < 0x10000
      requires sack.sane ==> u < sack.hd && flightEnd == Wrap(sack.hd)
      modifies sack
      ensures sack.Valid(u) && Kept() && Piped()
      ensures sack.sane ==>
                Answered(old(sack.rec), old(sack.log), sack.rec, sack.log, sack.at, sack.rat, sack.hd, u, Smss(smss),
                         true, false, true, false)
    {
      hide Scoreboard.Running, Wrap, Brief, Pipe, Judged;
      Entry(u);
      sack.SetDups(sack.rec.dupAcks + 1, u);
      var lost := sack.FirstIsLost(sndUna, smss, u);
      if sack.rec.dupAcks >= DUP_THRESH || lost {
        sack.EnterRecovery(SackRecovery, flightEnd, sndUna, smss, u);
      } else {
        sack.SetLimited(true, u);
      }
      var _ := sack.UpdatePipe(sndUna, flightEnd, smss, u);
    }

    /** Recovery reacts without touching what was reported. */
    twostate predicate Kept()
      reads sack
    {
      && sack.hd == old(sack.hd) && sack.at == old(sack.at) && sack.rat == old(sack.rat) && sack.sane == old(sack.sane)
      && sack.sacked == old(sack.sacked) && sack.rtx == old(sack.rtx)
      && sack.degraded == old(sack.degraded) && sack.denied == old(sack.denied)
    }

    /** Loss recovery after the scoreboard took in an ACK. */
    method React(ack: u32, permitted: bool, classic: bool, progressed: bool, newly: u32, flightEnd: u32, bufEnd: u32,
                 smss: nat, ghost u: int, ghost se: int)
      requires sack.Valid(u) && sndUna == ack == Wrap(u) && smss < 0x10000 && (newly > 0 ==> Lt(ack, flightEnd))
      requires sack.sane ==>
                 && flightEnd == Wrap(sack.hd) && bufEnd == Wrap(se)
                 && sack.hd <= se <= u + MAX_FLIGHT && u - sack.hd < HALF
      modifies sack
      ensures sack.Valid(u) && Kept() && (permitted && newly > 0 && old(sack.rec.mode) == Normal ==> Piped())
      ensures sack.sane ==>
                Answered(old(sack.rec), old(sack.log), sack.rec, sack.log, sack.at, sack.rat, sack.hd, u, Smss(smss),
                         permitted, !progressed && classic && u < sack.hd, newly > 0,
                         (progressed || newly > 0) && !sack.degraded)
    {
      hide Scoreboard.Valid, Wrap, Lt, NextSegOf, Selected, Pipe, Brief, Judged, LowHole;
      if sack.sane {
        NearEnd(u);
        SerialOrder(u, sack.hd);
      }
      if permitted && newly > 0 && sack.rec.mode == Normal {
        SackArrived(flightEnd, smss, u);
      } else if !permitted && !progressed && classic && Lt(sndUna, flightEnd) {
        if sack.rec.mode == Normal {
          sack.SetDups(sack.rec.dupAcks + 1, u);
          if sack.rec.dupAcks >= DUP_THRESH {
            Entry(u);
            sack.EnterRecovery(NewReno, flightEnd, sndUna, smss, u);
          }
        }
      }
      if sack.rec.mode == SackRecovery {
        var _ := sack.UpdatePipe(sndUna, flightEnd, smss, u);
      } else if sack.rec.mode == RtoRecovery && (progressed || newly > 0) {
        var _ := sack.ScheduleNext(bufEnd, false, sndUna, smss, u, se);
      }
    }

    lemma NearEnd(u: int)
      requires sack.Valid(u) && sack.sane
      ensures sack.hd - u < HALF
    {
    }

    lemma Before(v: int)
      requires sack.Valid(v) && sack.sane
      ensures sack.rec.mode != Normal ==> v < sack.log.rp
      ensures sack.rec.pending != NONE ==> sack.rec.mode != Normal
    {
      hide Wrap, Brief;
    }

    lemma Entry(u: int)
      requires sack.Valid(u)
      ensures sack.Sound(u)
    {
    }

    /** `tcp_process_peer_ack_ex`: outside [SND.UNA, SND.NXT] nothing changes; inside, exactly the
        acknowledged payload leaves, whatever the blocks report.  Blocks that are not sane cost
        the scoreboard its exactness, until nothing is left of them. */
    method ProcessAck(ack: u32, blocks: seq<Block>, permitted: bool, classic: bool, smss: nat, ghost a: int)
      returns (accepted: bool)
      requires Valid() && ack == Wrap(a) && -HALF <= a - g.una < HALF && smss < 0x10000
      modifies this`sndUna, this`g, buf, sack
      ensures Valid() && (accepted <==> old(g).una <= a <= old(g).nxt)
      ensures !accepted ==> g == old(g) && unchanged(sack) && buf.chunks == old(buf.chunks)
      ensures accepted ==> g == old(g).(una := a)
      ensures accepted && a >= g.Flight() ==> sack.sacked == [] && sack.rtx == []
      ensures accepted ==>
                var good := old(sack.sane) && (permitted ==> AllSane(blocks, ack, a, old(sack.hd)));
                && (sack.sane <==> sack.Blank() || good) && (sack.sane && !good ==> sack.at == [] && sack.rat == [])
                && (good ==>
                     && Learned(old(sack.at), sack.at, ack, blocks, permitted && a < sack.hd && !sack.degraded, a,
                                sack.hd)
                     && (forall p :: In(sack.rat, p) ==> In(old(sack.rat), p)) && sack.hd == old(sack.hd)
                     && (sack.degraded <==>
                          (old(sack.degraded) && a < old(sack.du)) || sack.denied == old(sack.denied) + 1)
                     && (permitted && old(sack.rec.mode) == Normal && Newer(old(sack.at), sack.at) ==> Piped())
                     && Reacted(old(sack.rec), old(sack.log), sack.rec, sack.log, sack.at, sack.rat, sack.hd, a,
                                Smss(smss), permitted, classic, a != old(g).una, Newer(old(sack.at), sack.at),
                                sack.denied > old(sack.denied), sack.degraded))
    {
      hide Scoreboard.Valid, Wrap, Content, Lt, Gt, In, Learned, AllSane, Reacted, Newer;
      AckRange(a);
      if Lt(ack, sndUna) || Gt(ack, sentSeq) {
        return false;
      }
      Ends();
      ghost var v := g.una;
      var flightEnd, mode, progressed := FlightEnd(), sack.rec.mode, ack != sndUna;
      BufferNear();
      if progressed {
        Advance(ack, a);
      }
      Ends();
      BufferNear();
      FlightAfter(a);
      TakeIn(ack, blocks, permitted, classic, mode, progressed, flightEnd, Add32(buf.headSeq, buf.len), smss, v, a,
             g.End());
      return true;
    }

    lemma AckRange(a: int)
      requires Books() && -HALF <= a - g.una < HALF
      ensures Lt(Wrap(a), sndUna) || Gt(Wrap(a), sentSeq) <==> !(g.una <= a <= g.nxt)
      ensures g.una <= a <= g.nxt ==> (Wrap(a) == sndUna <==> a == g.una)
    {
      hide Content, Buffer.Valid;
      BufferNear();
      if a == g.una - HALF {
        SubWrap(a, g.una);
        SmallWrap(-HALF);
      } else {
        hide Lt, Gt, Wrap;
        SerialOrder(a, g.una);
        if a >= g.una { SerialOrder(a, g.nxt); }
      }
    }

    lemma FlightAfter(a: int)
      requires Books() && g.una == a
      ensures a <= g.Flight() + 1 && g.Flight() <= a + MAX_FLIGHT && (Lt(Wrap(a), Wrap(g.Flight())) <==> a < g.Flight())
    {
      SerialOrder(a, g.Flight());
    }

    /** The scoreboard takes in the ACK; once nothing is left of earlier blocks it is exact again. */
    method TakeIn(ack: u32, blocks: seq<Block>, permitted: bool, classic: bool, mode: Mode, progressed: bool,
                  flightEnd: u32, bufEnd: u32, smss: nat,
                  ghost v: int, ghost a: int, ghost se: int)
      requires sack.Valid(v) && mode == sack.rec.mode && sndUna == ack == Wrap(a) && smss < 0x10000
      requires a <= sack.hd + 1 && sack.hd <= a + MAX_FLIGHT
      requires sack.sane ==>
                 && v <= a <= sack.hd + 1 && flightEnd == Wrap(sack.hd) && bufEnd == Wrap(se)
                 && (progressed <==> a != v) && sack.hd <= se <= a + MAX_FLIGHT
      modifies sack
      ensures sack.Valid(a) && sack.hd == old(sack.hd) && (!Lt(ack, flightEnd) ==> sack.sacked == [] && sack.rtx == [])
      ensures
        var good := old(sack.sane) && (permitted ==> AllSane(blocks, ack, a, old(sack.hd)));
        && (sack.sane <==> sack.Blank() || good) && (sack.sane && !good ==> sack.at == [] && sack.rat == [])
        && (good ==>
             && Learned(old(sack.at), sack.at, ack, blocks, permitted && a < sack.hd && !sack.degraded, a, sack.hd)
             && (forall p :: In(sack.rat, p) ==> In(old(sack.rat), p))
             && (sack.degraded <==> (old(sack.degraded) && a < old(sack.du)) || sack.denied == old(sack.denied) + 1)
             && (permitted && old(sack.rec.mode) == Normal && Newer(old(sack.at), sack.at) ==> Piped())
             && Reacted(old(sack.rec), old(sack.log), sack.rec, sack.log, sack.at, sack.rat, sack.hd, a, Smss(smss),
                        permitted, classic, progressed, Newer(old(sack.at), sack.at), sack.denied > old(sack.denied),
                        sack.degraded))
    {
      hide Scoreboard.Valid, Wrap, Lt, In, Learned, Newer, AllSane, Pipe, Brief, Reacted;
      Learn(ack, blocks, permitted, classic, mode, progressed, flightEnd, bufEnd, smss, v, a, se);
      if !sack.sane && sack.Blank() {
        sack.Restore(a);
      }
    }

    /** The blocks are merged, then recovery reacts. */
    method Learn(ack: u32, blocks: seq<Block>, permitted: bool, classic: bool, mode: Mode, progressed: bool,
                 flightEnd: u32, bufEnd: u32, smss: nat,
                 ghost v: int, ghost a: int, ghost se: int)
      requires sack.Valid(v) && mode == sack.rec.mode && sndUna == ack == Wrap(a) && smss < 0x10000
      requires sack.sane ==>
                 && v <= a <= sack.hd + 1 && flightEnd == Wrap(sack.hd) && bufEnd == Wrap(se)
                 && (progressed <==> a != v) && sack.hd <= se <= a + MAX_FLIGHT
      modifies sack
      ensures sack.Valid(a) && sack.sane == (old(sack.sane) && (permitted ==> AllSane(blocks, ack, a, old(sack.hd))))
      ensures sack.hd == old(sack.hd) && (!Lt(ack, flightEnd) ==> sack.sacked == [] && sack.rtx == [])
      ensures sack.sane ==>
                && Learned(old(sack.at), sack.at, ack, blocks, permitted && a < sack.hd && !sack.degraded, a, sack.hd)
                && (forall p :: In(sack.rat, p) ==> In(old(sack.rat), p)) && sack.hd == old(sack.hd)
                && (sack.degraded <==> (old(sack.degraded) && a < old(sack.du)) || sack.denied == old(sack.denied) + 1)
                && (permitted && old(sack.rec.mode) == Normal && Newer(old(sack.at), sack.at) ==> Piped())
                && Reacted(old(sack.rec), old(sack.log), sack.rec, sack.log, sack.at, sack.rat, sack.hd, a, Smss(smss),
                           permitted, classic, progressed, Newer(old(sack.at), sack.at),
                           sack.denied > old(sack.denied), sack.degraded)
    {
      hide Wrap, Lt, In, Learned, Newer, AllSane, Scoreboard.Exact, Pipe, Brief, Answered, Reacted;
      ghost var was, wasLog := sack.rec, sack.log;
      if sack.sane { Before(v); }
      var newly := Merge(ack, blocks, permitted, flightEnd, v, a);
      ghost var failed := sack.denied > old(sack.denied);
      if mode == NewReno && progressed {
        var _ := sack.SettleNewReno(ack, flightEnd, smss, a);
      }
      if progressed {
        sack.SetDups(0, a);
      }
      ghost var mid, midLog := sack.rec, sack.log;
      React(ack, permitted, classic, progressed, newly, flightEnd, bufEnd, smss, a, se);
      if sack.sane {
        Reacting(was, wasLog, mid, midLog, sack.rec, sack.log, sack.at, sack.rat, sack.hd, a, Smss(smss), permitted,
                 classic, progressed, newly > 0, failed, sack.degraded);
      }
    }

    /** The scoreboard's part: new octets are counted as new. */
    method Merge(ack: u32, blocks: seq<Block>, permitted: bool, flightEnd: u32, ghost v: int, ghost a: int)
      returns (newly: u32)
      requires sack.Valid(v) && ack == Wrap(a) && (sack.sane ==> v <= a <= sack.hd + 1 && flightEnd == Wrap(sack.hd))
      modifies sack
      ensures sack.Sound(a) && sack.sane == (old(sack.sane) && (permitted ==> AllSane(blocks, ack, a, old(sack.hd))))
      ensures (sack.rec.mode == old(sack.rec.mode) || sack.rec.mode == Normal) && (newly > 0 ==> Lt(ack, flightEnd))
      ensures sack.hd == old(sack.hd) && sack.log == old(sack.log)
      ensures !Lt(ack, flightEnd) ==> sack.sacked == [] && sack.rtx == []
      ensures sack.sane && (sack.rec.mode == SackRecovery || sack.rec.mode == RtoRecovery) ==> a < sack.log.rp
      ensures sack.sane ==>
                && Learned(old(sack.at), sack.at, ack, blocks, permitted && a < sack.hd && !sack.degraded, a, sack.hd)
                && (forall p :: In(sack.rat, p) ==> In(old(sack.rat), p))
                && (sack.degraded <==> (old(sack.degraded) && a < old(sack.du)) || sack.denied == old(sack.denied) + 1)
                && (Newer(old(sack.at), sack.at) <==> newly > 0) && (sack.denied > old(sack.denied) ==> permitted)
                && sack.rec == Settled(old(sack.rec), sack.log, sack.hd, a, sack.denied > old(sack.denied))
    {
      hide Wrap, Lt, In, Reported, Sane, Scoreboard.Exact, Scoreboard.Running, Count, Brief, IsDsack, Cutoff, Settled;
      ghost var was := sack.at;
      var given := if permitted then blocks else [];
      var dsack, covers, exited;
      ghost var applied;
      newly, dsack, covers, exited, applied := sack.Update(ack, ack, given, flightEnd, permitted, v, a, Span(a, a));
      InNone();
      if sack.sane {
        Inward(a);
        if Newer(was, sack.at) {
          var p :| In(sack.at, p) && !In(was, p);
          if applied { CountGrows(sack.at, was, p, a, sack.hd); }
        } else {
          CountGrows(was, sack.at, a, a, sack.hd);
        }
      }
    }

    lemma Inward(a: int)
      requires sack.Exact(a)
      ensures forall p :: In(sack.at, p) ==> a <= p < sack.hd
    {
    }
  }
  /** Limited Transmit past the peer's window: a window of 8000 admits 5000 octets, a congestion
      window of 4000 lets out 4000, and the peer SACKs the last 1000 while shrinking its window
      to 4000.  Unless an allocation was refused, the next flush sends beyond that window. */
  method Overrun(data: seq<byte>) returns (s: Sender, out: Output)
    requires |data| == 5000
    ensures fresh(s) && s.Valid() && s.g.una == 0
    ensures s.buf.denied == s.sack.denied == 0 ==> out.Sent? && out.segment.sq == 4000 && s.g.nxt - s.g.una > 4000
  {
    hide Sender.Valid, Sender.Load, Sender.Wanted, Sender.Fits, In;
    var ready;
    s, ready := Shrunk(data);
    out := Silent;
    if ready {
      s.Parts();
      s.Discount(1000, 3000);
      s.Room(1000);
      ghost var pos, load;
      out, pos, load := s.FlushNew(4000, 4000, 1000, 1000, true, false, Net(true, true));
    }
  }

  /** The state just before. */
  method Shrunk(data: seq<byte>) returns (s: Sender, ready: bool)
    requires |data| == 5000
    ensures fresh(s) && fresh(s.buf) && fresh(s.sack) && s.Valid() && s.g.una == 0
    ensures s.buf.denied == s.sack.denied == 0 ==> ready
    ensures ready ==> s.status == Established && s.g == Ledger(0, data, 0, 4000, false) && s.sack.sane && s.Piped()
    ensures ready ==> In(s.sack.at, 3000) && forall q :: !In(s.sack.rat, q)
  {
    hide Sender.Valid, Sender.Books, In, Ledger.Ordered;
    ready := false;
    var n;
    s, n := Admitted(data);
    if n == 5000 {
      s.FillWindow();
      ready := s.TakeTail();
    }
  }

  /** A fresh connection takes the data, or its allocator refuses. */
  method Admitted(data: seq<byte>) returns (s: Sender, n: int)
    requires |data| == 5000
    ensures fresh(s) && fresh(s.buf) && fresh(s.sack) && s.Valid() && s.status == Established && s.g.una == 0
    ensures s.sack.at == s.sack.rat == [] && s.sack.sane && !s.Piped() && s.sack.rec.mode == Normal && !s.sack.degraded
    ensures s.sack.denied == 0 && (s.buf.denied == 0 ==> n == 5000)
    ensures n == 5000 ==> s.g == Ledger(0, data, 0, 0, false)
  {
    hide Sender.Valid;
    s := new Sender(0);
    n := s.Send(data, 8000, true);
    if n == 5000 { assert [] + data[..n] == data; }
  }

  const TAIL := Block(3000, 4000)

  lemma TailBlock()
    ensures Wrap(0) == 0 && AllSane([TAIL], 0, 0, 4000)
  {
  }

  lemma TailLearned(now: seq<Span>)
    requires Learned([], now, 0, [TAIL], true, 0, 4000)
    ensures In(now, 3000) && Newer([], now)
  {
    assert Reports([TAIL][0], 0, 4000, 3000);
  }
}
