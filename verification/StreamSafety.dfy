/** Two endpoints and a network that drops, duplicates and reorders: what the
    receiving application gets is what the sending application wrote. */
module StreamSafety {
  import opened Serial
  import opened Octets
  import opened SackRanges
  import SackLoss
  import SendBuffer
  import opened Sack
  import opened SackReport
  import opened Reassembly
  import opened TcpOfo
  import opened TcpReceive
  import opened TcpSend
  import OfoStore

  /** An acknowledgement on the wire. */
  datatype Reply = Reply(ack: u32, blocks: seq<Block>)

  /** The same at unwrapped positions. */
  datatype Ack = Ack(at: int, spans: seq<Span>)

  ghost predicate SegmentAt(e: Emission, s: Piece) {
    e == Emission(Wrap(s.pos), s.data, s.fin)
  }

  ghost predicate ReplyAt(r: Reply, m: Ack) {
    r.ack == Wrap(m.at) && Codes(r.blocks, m.spans)
  }

  /** Byte `b` is at position `p` of the stream. */
  ghost predicate Written(g: Ledger, p: int, b: byte) {
    g.origin <= p < g.End() && g.accepted[p - g.origin] == b
  }

  /** A segment cut from the stream that was sent. */
  ghost predicate FromStream(g: Ledger, s: Piece) {
    g.Slice(s.pos, s.data) && |s.data| < 0x10000 && (s.fin ==> g.fin && s.End() == g.End())
  }

  /** Delivered bytes are a prefix, held bytes are in place, a held FIN is the sender's, and the
      end is seen after everything the sender wrote. */
  ghost predicate Faithful(g: Ledger, delivered: seq<byte>, eof: bool, held: seq<Piece>) {
    && delivered <= g.accepted
    && (forall p, b :: Has(held, p, b) ==> Written(g, p, b))
    && (forall e :: FinAt(held, e) ==> g.fin && e == g.End())
    && (eof ==> g.fin && delivered == g.accepted)
  }

  lemma FaithfulReceived(g: Ledger, was: seq<byte>, l0: seq<Piece>, n0: int, d: seq<byte>, eof: bool, l: seq<Piece>,
                         n: int, x: Piece, whole: bool)
    requires Faithful(g, was, false, l0) && n0 == g.origin + |was| && Received(l0, n0, l, n, eof, d, x, whole)
    requires (forall p, b :: x.Has(p, b) ==> Written(g, p, b)) && (x.fin ==> g.fin && x.End() == g.End())
    requires (forall p, b :: Has(l, p, b) ==> n <= p) && forall e :: FinAt(l, e) ==> n <= e
    ensures Faithful(g, was + d, eof, l)
  {
    forall i | 0 <= i < |d|
      ensures Written(g, n0 + i, d[i])
    {
      assert Has(l0, n0 + i, d[i]) || x.Has(n0 + i, d[i]);
    }
    if d != [] { assert Written(g, n0 + |d| - 1, d[|d| - 1]); }
    forall i | 0 <= i < |d|
      ensures g.accepted[|was| + i] == d[i]
    {
      assert Written(g, n0 + i, d[i]);
    }
    assert was + d == g.accepted[..|was| + |d|];
  }

  lemma WindowedWritten(g: Ledger, s: Piece, lo: int, hi: int)
    requires FromStream(g, s)
    ensures
      var x := Windowed(s, lo, hi);
      (forall p, b :: x.Has(p, b) ==> Written(g, p, b)) && (x.fin ==> g.fin && x.End() == g.End())
  {
    var x := Windowed(s, lo, hi);
    forall p, b | x.Has(p, b)
      ensures Written(g, p, b)
    {
      ClipHas(s, lo, hi, p, b);
      assert s.data[p - s.pos] == g.accepted[p - g.origin];
    }
  }

  /** The stream only grows, and only until the FIN. */
  ghost predicate Later(g: Ledger, h: Ledger) {
    h.origin == g.origin && g.accepted <= h.accepted && (g.fin ==> h.accepted == g.accepted && h.fin)
  }

  lemma StreamGrows(g: Ledger, h: Ledger, s: Piece)
    requires FromStream(g, s) && Later(g, h)
    ensures FromStream(h, s)
  {
  }

  lemma FaithfulGrows(g: Ledger, h: Ledger, delivered: seq<byte>, eof: bool, held: seq<Piece>)
    requires Faithful(g, delivered, eof, held) && Later(g, h)
    ensures Faithful(h, delivered, eof, held)
  {
    forall p, b | Has(held, p, b)
      ensures Written(h, p, b)
    {
      assert Written(g, p, b);
    }
  }

  /** Octets the sender counts as SACKed were received. */
  ghost predicate SackedHad(at: seq<Span>, held: seq<Piece>, nxt: int) {
    forall p :: In(at, p) ==> Had(held, nxt, p)
  }

  lemma NothingSacked(held: seq<Piece>, nxt: int)
    ensures SackedHad([], held, nxt)
  {
    InNone();
  }

  ghost predicate AckTrue(m: Ack, held: seq<Piece>, nxt: int) {
    && m.at <= nxt
    && forall i :: 0 <= i < |m.spans| ==> m.spans[i].left < m.spans[i].right && AllHad(held, nxt, m.spans[i])
  }

  lemma AckStays(m: Ack, l0: seq<Piece>, n0: int, l: seq<Piece>, n: int)
    requires AckTrue(m, l0, n0) && Keeps(l0, n0, l, n) && n0 <= n
    ensures AckTrue(m, l, n)
  {
    forall i | 0 <= i < |m.spans|
      ensures AllHad(l, n, m.spans[i])
    {
      KeepsAll(l0, n0, l, n, m.spans[i]);
    }
  }

  /** What may happen next at an endpoint or in the network. */
  datatype Step =
    | Write(data: seq<byte>, sndWnd: nat, wndValid: bool)
    | SendNew(sndWnd: nat, cwnd: nat, smss: nat, mss: nat, nodelay: bool, appClosed: bool, net: Net)
    | Repair(cwnd: nat, smss: nat, mss: nat, net: Net)
    | Finish(which: int, smss: nat, enqueued: bool)
    | Arrive(k: nat)
    | Read(len: nat, failed: bool, closed: bool)
    | Acknowledge(capacity: nat)
    | AckArrive(k: nat, blocks: seq<Block>, permitted: bool, classic: bool, smss: nat)
    | Peer(next: Status)

  /** Segments and replies do not outlive this many accepted octets. */
  const LIFETIME := HALF - 4 * TcpSend.HIGH_WATER

  class Connection {
    const snd: Sender
    const rcv: Receiver
    var wire: seq<Emission>  // every segment ever sent; any of them may arrive, any number of times
    var acks: seq<Reply>
    ghost var sent: seq<Piece>  // the same at unwrapped positions
    ghost var told: seq<Ack>
    ghost var honest: bool  // every reply since the scoreboard was last blank was taken with its own, recent blocks
    var total: nat          // octets accepted from the application
    var born: seq<nat>      // how many there were when each segment was sent
    var made: seq<nat>      // and when each reply was
    ghost var taken: seq<Step>  // what happened so far

    ghost predicate Apart()
      reads rcv.ofo.store, rcv.ofo.store.index
    {
      {this, snd, snd.buf, snd.sack} !! {rcv, rcv.ofo, rcv.ofo.owner} + rcv.ofo.store.Repr()
    }

    /** What the endpoints and the network have in common in every reachable state. */
    ghost predicate Agreed()
      reads this`wire, this`acks, this`sent, this`told, this`honest, snd, snd.sack, rcv, rcv.ofo, rcv.ofo.store
    {
      var g, held, nxt := snd.g, rcv.ofo.store.held, rcv.ofo.nxt;
      && rcv.origin == g.origin && Faithful(g, rcv.delivered, rcv.eof, held)
      && |sent| == |wire| && (forall i :: 0 <= i < |wire| ==> SegmentAt(wire[i], sent[i]) && FromStream(g, sent[i]))
      && |told| == |acks| && (forall i :: 0 <= i < |acks| ==> ReplyAt(acks[i], told[i]) && AckTrue(told[i], held, nxt))
      && (honest ==> snd.sack.sane && SackedHad(snd.sack.at, held, nxt)) && (snd.status != Closed ==> g.una <= nxt)
      && g.End() - TcpSend.HIGH_WATER <= nxt
    }

    ghost predicate Valid()
      reads this`wire, this`acks, this`sent, this`told, this`honest, snd, snd.buf, snd.sack
      reads rcv, rcv.ofo, rcv.ofo.owner, rcv.ofo.store, rcv.ofo.store.Repr()
      reads rcv.ofo.store.chain.nodes
    {
      && Apart() && snd.Valid() && rcv.Valid() && Agreed()
      && Backed(rcv.notes, rcv.dupAt, rcv.ofo.store.held, rcv.ofo.nxt)
    }

    /** When segments and replies were sent. */
    ghost predicate Dated()
      reads this`wire, this`acks, this`sent, this`told, this`total, this`born, this`made, snd
    {
      && total == |snd.g.accepted| && |born| == |wire| == |sent| && |made| == |acks| == |told|
      && (forall i :: 0 <= i < |born| ==> sent[i].pos >= snd.g.origin + born[i] - TcpSend.HIGH_WATER)
      && (forall i :: 0 <= i < |made| ==> told[i].at >= snd.g.origin + made[i] - TcpSend.HIGH_WATER)
    }

    /** At most one segment went out, and it names recent octets. */
    twostate predicate Sends()
      reads this, snd
    {
      && old(wire) <= wire && old(sent) <= sent && |wire| == |sent| && |wire| <= |old(wire)| + 1
      && snd.g.origin == old(snd.g).origin
      && forall i :: |old(wire)| <= i < |wire| ==> sent[i].pos >= snd.g.End() - TcpSend.HIGH_WATER
    }

    lemma Buffered()
      requires Valid()
      ensures snd.g.End() <= snd.g.una + TcpSend.HIGH_WATER && snd.g.End() - TcpSend.HIGH_WATER <= rcv.ofo.nxt
      ensures snd.status != Closed ==> snd.g.una <= rcv.ofo.nxt
      ensures snd.g.Ordered() && |sent| == |wire| && |told| == |acks|
    {
      hide Scoreboard.Valid, OfoQueue.Valid, SendBuffer.Content;
      snd.BufferNear();
    }

    /** Stream safety: what was delivered is a prefix of what was accepted, the end of file
        comes after all of it, and with honest replies only octets that were received are SACKED. */
    lemma Safe()
      requires Valid()
      ensures rcv.read <= rcv.delivered <= snd.g.accepted
      ensures rcv.eof ==> snd.g.fin && rcv.delivered == snd.g.accepted
      ensures honest ==> forall p :: In(snd.sack.at, p) ==> Had(rcv.ofo.store.held, rcv.ofo.nxt, p)
    {
    }

    constructor (start: u32, size: nat, permit: bool, owner: Owner)
      requires size <= MAX_WINDOW && owner.bytes <= OWNER_MAX_BYTES
      ensures Valid() && wire == [] && acks == [] && fresh(snd) && fresh(rcv) && snd.g.accepted == [] && honest
      ensures Dated()
    {
      hide Sender.Valid, Receiver.Valid;
      snd := new Sender(start);
      rcv := new Receiver(start, size, permit, owner);
      wire, acks, sent, told, honest := [], [], [], [], true;
      total, born, made, taken := 0, [], [], [];
      new;
    }

    /** The sender moved and at most one segment cut from its stream went out. */
    twostate lemma SenderMoved()
      requires old(Agreed()) && Later(old(snd.g), snd.g) && (snd.g.una == old(snd.g).una || snd.status == Closed)
      requires snd.status != Closed ==> old(snd.status) != Closed
      requires snd.g.End() - TcpSend.HIGH_WATER <= rcv.ofo.nxt
      requires unchanged(rcv, rcv.ofo, rcv.ofo.store) && acks == old(acks) && told == old(told) && honest == old(honest)
      requires
        || (wire == old(wire) && sent == old(sent))
        || (&& |wire| == |old(wire)| + 1 == |sent| && old(wire) <= wire && old(sent) <= sent
            && SegmentAt(wire[|old(wire)|], sent[|old(wire)|]) && FromStream(snd.g, sent[|old(wire)|]))
      requires (old(snd.sack.sane) ==> snd.sack.sane) && (snd.sack.at == old(snd.sack.at) || snd.sack.at == [])
      ensures Agreed()
    {
      hide FromStream, Faithful, Later, AckTrue, SegmentAt, ReplyAt;
      FaithfulGrows(old(snd.g), snd.g, rcv.delivered, rcv.eof, rcv.ofo.store.held);
      SameStart(old(snd.g), snd.g);
      forall i | 0 <= i < |wire|
        ensures SegmentAt(wire[i], sent[i]) && FromStream(snd.g, sent[i])
      {
        if i < |old(wire)| {
          assert wire[i] == old(wire)[i] && sent[i] == old(sent)[i];
          StreamGrows(old(snd.g), snd.g, sent[i]);
        }
      }
    }

    /** What fits the peer's window and the buffer was accepted, unless the allocator refused. */
    twostate predicate Wrote(data: seq<byte>, sndWnd: nat, wndValid: bool)
      reads snd, snd.buf
    {
      var most := if wndValid && sndWnd < TcpSend.HIGH_WATER then sndWnd else TcpSend.HIGH_WATER;
      var space := if old(snd.buf.len) < most then most - old(snd.buf.len) else 0;
      old(snd.status) in {Established, CloseWait} && snd.buf.denied == old(snd.buf.denied) ==>
        snd.g.accepted == old(snd.g).accepted + if |data| < space then data else data[..space]
    }

    /** The application writes. */
    method AppSend(data: seq<byte>, sndWnd: nat, wndValid: bool) returns (n: int)
      requires Valid()
      modifies snd, snd.buf
      ensures Valid() && -1 <= n <= |data|
      ensures
        && snd.g.accepted == old(snd.g).accepted + (if n > 0 then data[..n] else [])
        && snd.g.origin == old(snd.g).origin && rcv.delivered == old(rcv.delivered)
      ensures Wrote(data, sndWnd, wndValid)
    {
      hide Sender.Valid, Receiver.Valid, Agreed, Backed;
      SenderOpen();
      Buffered();
      n := snd.Send(data, sndWnd, wndValid);
      snd.Parts();
      snd.BufferNear();
      assert Later(old(snd.g), snd.g);
      SenderMoved();
    }

    lemma Paired()
      requires Agreed()
      ensures |sent| == |wire| && |told| == |acks|
    {
    }

    lemma SenderOpen()
      requires Valid()
      ensures Open(snd.status) ==> !snd.g.fin
    {
    }

    /** Nothing holds new data back: the stream is open, both windows have room, and Nagle's rule allows it. */
    ghost predicate Owing(sndWnd: nat, cwnd: nat, smss: nat, mss: nat, nodelay: bool, appClosed: bool)
      reads snd, snd.sack
    {
      && snd.g.Ordered() && snd.g.nxt < snd.g.End() && snd.status !in {FinWait2, TimeWait, Closed} && mss > 0
      && (nodelay || appClosed || snd.g.una == snd.g.nxt || snd.g.End() - snd.g.nxt >= mss)
      && snd.Counted() && snd.Load(smss) < cwnd && snd.Load(smss) < sndWnd
    }

    /** `tcp_tx_flush_sndbuf` */
    method TxNew(sndWnd: nat, cwnd: nat, smss: nat, mss: nat, nodelay: bool, appClosed: bool, net: Net)
      requires Valid() && mss < 0x10000
      modifies this`wire, this`sent, snd, snd.buf, snd.sack
      ensures Valid() && snd.g.accepted == old(snd.g).accepted && rcv.delivered == old(rcv.delivered)
      ensures Sends()
      ensures old(Owing(sndWnd, cwnd, smss, mss, nodelay, appClosed)) && net == Net(true, true) ==>
                && |wire| == |old(wire)| + 1 && wire[|old(wire)|].sq == Wrap(old(snd.g).nxt)
                && snd.g.nxt == old(snd.g).nxt + |wire[|old(wire)|].data| > old(snd.g).nxt
    {
      hide Sender.Valid, Receiver.Valid, Agreed, Backed, Sender.Load, Sender.Wanted, Sender.Fits, Sender.Quota;
      hide Sender.Held, SackLoss.Pipe, SendBuffer.Rest, Sub32;
      Paired();
      Buffered();
      var out, pos, _ := snd.FlushNew(sndWnd, cwnd, smss, mss, nodelay, appClosed, net);
      if out.Sent? {
        wire, sent := wire + [out.segment], sent + [Piece(pos, out.segment.data, false)];
      }
      SenderMoved();
    }

    /** `tcp_tx_flush_recovery_retransmit` */
    method TxRecovery(cwnd: nat, smss: nat, mss: nat, net: Net)
      requires Valid() && smss < 0x10000 && mss < 0x10000
      modifies this`wire, this`sent, snd.sack
      ensures Valid() && snd.g == old(snd.g) && rcv.delivered == old(rcv.delivered)
      ensures Sends()
      ensures old(snd.Repeatable(snd.sack.rec.pending)) && mss > 0 && net == Net(true, true) ==>
                |wire| == |old(wire)| + 1 && wire[|old(wire)|].sq == old(snd.sack.rec.pending.sq)
    {
      hide Sender.Valid, Receiver.Valid, Agreed, Backed, Sender.Asks, NextSegOf, In;
      Paired();
      Buffered();
      var out, pos, _ := snd.FlushRecovery(cwnd, smss, mss, net);
      if out.Sent? {
        wire, sent := wire + [out.segment], sent + [Piece(pos, out.segment.data, false)];
      }
      SenderMoved();
    }

    /** The FIN went out, with the number after the last byte. */
    twostate predicate Ends()
      reads this`wire, snd
    {
      snd.g.fin && |wire| == |old(wire)| + 1 && wire[|old(wire)|] == Emission(Wrap(snd.g.End()), [], true)
    }

    /** `tcp_close` */
    method TxClose(enqueued: bool)
      requires Valid()
      modifies this`wire, this`sent, snd, snd.buf, snd.sack
      ensures Valid() && snd.g.accepted == old(snd.g).accepted && rcv.delivered == old(rcv.delivered)
      ensures Sends()
      ensures enqueued && old(snd.status in {Established, CloseWait} && snd.g.nxt == snd.g.End()) ==> Ends()
    {
      hide Sender.Valid, Receiver.Valid, Agreed, Backed;
      Paired();
      Buffered();
      var out, pos := snd.Close(enqueued);
      if out.Sent? {
        wire, sent := wire + [out.segment], sent + [Piece(pos, [], true)];
      }
      SenderMoved();
    }

    /** A deferred FIN is due. */
    ghost predicate Late()
      reads snd
    {
      snd.finDeferred && snd.status in {FinWait1, Closing, LastAck} && snd.g.nxt == snd.g.End()
    }

    /** The deferred FIN. */
    method TxLateFin(enqueued: bool)
      requires Valid()
      modifies this`wire, this`sent, snd, snd.buf, snd.sack
      ensures Valid() && snd.g.accepted == old(snd.g).accepted && rcv.delivered == old(rcv.delivered)
      ensures Sends() && (enqueued && old(Late()) ==> Ends())
    {
      hide Sender.Valid, Receiver.Valid, Agreed, Backed;
      Paired();
      Buffered();
      var out, pos := snd.FlushFin(enqueued);
      if out.Sent? {
        wire, sent := wire + [out.segment], sent + [Piece(pos, [], true)];
      }
      SenderMoved();
    }

    /** Only the FIN is left to be acknowledged. */
    ghost predicate Lone()
      reads snd, snd.buf
    {
      snd.status in {FinWait1, Closing, LastAck} && snd.g.una < snd.g.nxt && snd.buf.len == 0
    }

    /** The retransmission timer. */
    method TxTimer(smss: nat, enqueued: bool)
      requires Valid() && smss < 0x10000
      modifies this`wire, this`sent, snd.sack
      ensures Valid() && snd.g.accepted == old(snd.g).accepted && rcv.delivered == old(rcv.delivered)
      ensures Sends() && (enqueued && old(Lone()) ==> Ends())
    {
      hide Sender.Valid, Receiver.Valid, Agreed, Backed;
      Paired();
      Buffered();
      var out, pos := snd.Rto(smss, enqueued);
      if out.Sent? {
        wire, sent := wire + [out.segment], sent + [Piece(pos, [], true)];
      }
      SenderMoved();
    }

    /** `tcp_close`, the deferred FIN, or a FIN sent again by the timer. */
    method TxFin(which: int, smss: nat, enqueued: bool)
      requires Valid() && smss < 0x10000
      modifies this`wire, this`sent, snd, snd.buf, snd.sack
      ensures Valid() && snd.g.accepted == old(snd.g).accepted && rcv.delivered == old(rcv.delivered)
      ensures Sends()
      ensures which == 0 && enqueued && old(snd.status in {Established, CloseWait} && snd.g.nxt == snd.g.End()) ==>
                Ends()
      ensures enqueued && which == 1 && old(Late()) ==> Ends()
      ensures enqueued && which !in {0, 1} && old(Lone()) ==> Ends()
    {
      hide Valid;
      if which == 0 {
        TxClose(enqueued);
      } else if which == 1 {
        TxLateFin(enqueued);
      } else {
        TxTimer(smss, enqueued);
      }
    }

    /** The receiver moved and gave up nothing it had. */
    twostate lemma ReceiverMoved()
      requires
        && old(Agreed()) && unchanged(snd, snd.sack) && wire == old(wire) && sent == old(sent)
        && rcv.origin == old(rcv.origin)
      requires honest == old(honest)
      requires
        || (acks == old(acks) && told == old(told))
        || (&& |acks| == |old(acks)| + 1 == |told| && old(acks) <= acks && old(told) <= told
            && ReplyAt(acks[|old(acks)|], told[|old(acks)|])
            && AckTrue(told[|old(acks)|], rcv.ofo.store.held, rcv.ofo.nxt))
      requires Faithful(snd.g, rcv.delivered, rcv.eof, rcv.ofo.store.held)
      requires
        && old(rcv.ofo.nxt) <= rcv.ofo.nxt
        && Keeps(old(rcv.ofo.store.held), old(rcv.ofo.nxt), rcv.ofo.store.held, rcv.ofo.nxt)
      ensures Agreed()
    {
      hide FromStream, Faithful, AckTrue, SegmentAt, ReplyAt, Had;
      forall i | 0 <= i < |acks|
        ensures ReplyAt(acks[i], told[i]) && AckTrue(told[i], rcv.ofo.store.held, rcv.ofo.nxt)
      {
        if i < |old(acks)| {
          assert acks[i] == old(acks)[i] && told[i] == old(told)[i];
          AckStays(told[i], old(rcv.ofo.store.held), old(rcv.ofo.nxt), rcv.ofo.store.held, rcv.ofo.nxt);
        }
      }
    }

    /** Unless something was refused, the receiver has what segment `k` brought into the window, and
        delivered whatever is in line. */
    twostate predicate Kept(k: nat)
      reads this`sent, rcv, rcv.ofo, rcv.ofo.store
      requires k < |sent|
    {
      rcv.Refusals() == old(rcv.Refusals()) && !old(rcv.eof) ==>
        && (forall p :: sent[k].pos <= p < sent[k].End() && p < old(rcv.ofo.nxt + rcv.ofo.Window()) ==>
              Had(rcv.ofo.store.held, rcv.ofo.nxt, p))
        && (TcpReceive.Intersects(old(rcv.ofo.nxt), old(rcv.ofo.Window()), sent[k]) ==> rcv.Drained())
    }

    /** Segment `k` arrives, again or for the first time, less than half the
        sequence space away from what the receiver expects. */
    method Deliver(k: nat)
      requires Valid() && k < |wire| && -HALF <= sent[k].pos - rcv.ofo.nxt < HALF
      modifies rcv, rcv.ofo, rcv.ofo.owner, rcv.ofo.store.Repr()
      ensures Valid() && snd.g == old(snd.g) && old(rcv.delivered) <= rcv.delivered && rcv.read == old(rcv.read)
      ensures fresh(rcv.ofo.store.Repr() - old(rcv.ofo.store.Repr()))
      ensures Kept(k)
    {
      hide Sender.Valid, Receiver.Valid, Agreed, Backed, Received, Keeps, Faithful, FromStream, Windowed;
      hide TcpReceive.Intersects, Receiver.Ready, OfoQueue.Near, Got, Preserved, Had, SackReport.Marks;
      var e := wire[k];
      ghost var s := Arriving(k);
      ghost var g, l0, n0, was := snd.g, rcv.ofo.store.held, rcv.ofo.nxt, rcv.delivered;
      InStep();
      NotStranded(s);
      rcv.ValidReady();
      ghost var whole := rcv.Receive(e.sq, e.data, e.fin, s, rcv.ofo.nxt);
      Above(rcv);
      if !old(rcv.eof) && TcpReceive.Intersects(n0, old(rcv.ofo.Window()), s) {
        ghost var x := Windowed(s, n0, n0 + old(rcv.ofo.Window()));
        WindowedWritten(g, s, n0, n0 + old(rcv.ofo.Window()));
        FaithfulReceived(g, was, l0, n0, rcv.delivered[|was|..], rcv.eof, rcv.ofo.store.held, rcv.ofo.nxt, x, whole);
        assert was + rcv.delivered[|was|..] == rcv.delivered;
        if whole { Brought(g, l0, n0, x, s, old(rcv.ofo.Window())); }
      } else if !old(rcv.eof) {
        Missed(n0, old(rcv.ofo.Window()), s);
      }
      StillKept(l0, n0);
      ReceiverMoved();
    }

    /** What a whole segment brought is held or delivered. */
    lemma Brought(g: Ledger, l0: seq<Piece>, n0: int, x: Piece, s: Piece, wnd: nat)
      requires x == Windowed(s, n0, n0 + wnd) && FromStream(g, s)
      requires exists d :: Got(l0, n0, rcv.ofo.store.held, rcv.ofo.nxt, rcv.eof, d, x, true)
      requires Faithful(g, rcv.delivered, rcv.eof, rcv.ofo.store.held)
      requires rcv.ofo.nxt == g.origin + |rcv.delivered| + (if rcv.eof then 1 else 0) && n0 <= rcv.ofo.nxt
      ensures forall p :: s.pos <= p < s.End() && p < n0 + wnd ==> Had(rcv.ofo.store.held, rcv.ofo.nxt, p)
    {
      forall p | s.pos <= p < s.End() && p < n0 + wnd
        ensures Had(rcv.ofo.store.held, rcv.ofo.nxt, p)
      {
        if p >= rcv.ofo.nxt { assert x.Has(p, s.data[p - s.pos]); }
      }
    }

    /** A segment outside the window has nothing new inside it. */
    lemma Missed(n0: int, wnd: nat, s: Piece)
      requires !TcpReceive.Intersects(n0, wnd, s) && rcv.ofo.nxt == n0
      ensures forall p :: s.pos <= p < s.End() && p < n0 + wnd ==> Had(rcv.ofo.store.held, rcv.ofo.nxt, p)
    {
    }

    /** A segment of the stream is never a FIN inside what is held. */
    lemma NotStranded(s: Piece)
      requires FromStream(snd.g, s) && Faithful(snd.g, rcv.delivered, rcv.eof, rcv.ofo.store.held)
      ensures !rcv.Strands(s)
    {
      hide TcpReceive.Intersects;
      var g, held := snd.g, rcv.ofo.store.held;
      var x := Windowed(s, rcv.ofo.nxt, rcv.ofo.nxt + rcv.ofo.Window());
      WindowedWritten(g, s, rcv.ofo.nxt, rcv.ofo.nxt + rcv.ofo.Window());
      forall k: nat | k < |held|
        ensures !Strays(held, k, x)
      {
        if held[k].data != [] { LastWritten(g, held, k); }
      }
    }

    /** With nothing beyond the stream nothing is given up. */
    lemma StillKept(l0: seq<Piece>, n0: int)
      requires Preserved(l0, n0, rcv.ofo.store.held, rcv.ofo.nxt, rcv.eof)
      requires forall p, b :: Has(l0, p, b) ==> Written(snd.g, p, b)
      requires Faithful(snd.g, rcv.delivered, rcv.eof, rcv.ofo.store.held)
      requires rcv.ofo.nxt == snd.g.origin + |rcv.delivered| + if rcv.eof then 1 else 0
      ensures Keeps(l0, n0, rcv.ofo.store.held, rcv.ofo.nxt)
    {
      forall q | Covered(l0, q)
        ensures q < snd.g.End()
      {
        CoveredHas(l0, q);
        var b :| Has(l0, q, b);
      }
    }

    lemma Arriving(k: nat) returns (s: Piece)
      requires Valid() && k < |wire| && -HALF <= sent[k].pos - rcv.ofo.nxt < HALF
      ensures FromStream(snd.g, s) && rcv.ofo.Offered(wire[k].sq, wire[k].data, wire[k].fin, s) && s == sent[k]
    {
      s := sent[k];
      assert SegmentAt(wire[k], sent[k]);
    }

    lemma InStep()
      requires Valid()
      ensures Faithful(snd.g, rcv.delivered, rcv.eof, rcv.ofo.store.held) && rcv.origin == snd.g.origin
      ensures rcv.ofo.nxt == snd.g.origin + |rcv.delivered| + if rcv.eof then 1 else 0
    {
    }

    /** The application reads. */
    method AppRecv(len: nat, failed: bool, closed: bool) returns (r: ReadResult)
      requires Valid()
      modifies rcv, rcv.ofo, rcv.ofo.owner, rcv.ofo.store.Repr()
      ensures Valid() && snd.g == old(snd.g) && old(rcv.delivered) <= rcv.delivered && old(rcv.read) <= rcv.read
      ensures r.Bytes? ==> rcv.read == old(rcv.read) + r.data
      ensures r == EndOfFile && !closed ==> snd.g.fin && rcv.read == snd.g.accepted
      ensures len > 0 && !failed && old(rcv.read < rcv.delivered) ==> |rcv.read| > |old(rcv.read)|
      ensures rcv.ofo.store.Repr() <= old(rcv.ofo.store.Repr())
    {
      hide Sender.Valid, Receiver.Valid, Agreed, Backed, Received, Keeps, Faithful, Receiver.Ready, OfoQueue.Near;
      hide Preserved;
      ghost var g, l0, n0, was := snd.g, rcv.ofo.store.held, rcv.ofo.nxt, rcv.delivered;
      InStep();
      rcv.ValidReady();
      r := rcv.Recv(len, failed, closed, rcv.ofo.nxt);
      Above(rcv);
      if !old(rcv.eof) {
        FaithfulReceived(g, was, l0, n0, rcv.delivered[|was|..], rcv.eof, rcv.ofo.store.held, rcv.ofo.nxt,
                         Piece(n0, [], false), true);
        assert was + rcv.delivered[|was|..] == rcv.delivered;
      }
      StillKept(l0, n0);
      StillBacked(old(rcv.notes), rcv.dupAt, l0, n0, rcv.ofo.store.held, rcv.ofo.nxt);
      PurgedBacked(old(rcv.notes), rcv.dupAt, rcv.ofo.store.held, rcv.ofo.nxt);
      ReceiverMoved();
      if r == EndOfFile && !closed { Whole(g, rcv.delivered, rcv.ofo.store.held); }
    }

    /** The receiver answers. */
    method TxAck(capacity: nat)
      requires Valid()
      modifies this`acks, this`told, rcv`notes
      ensures Valid() && snd.g == old(snd.g) && rcv.delivered == old(rcv.delivered)
      ensures |acks| == |told| == |old(acks)| + 1 && old(acks) <= acks && old(told) <= told
      ensures told[|old(acks)|].at >= snd.g.End() - TcpSend.HIGH_WATER
      ensures told[|old(acks)|].at == rcv.ofo.nxt && acks[|old(acks)|].ack == Wrap(rcv.ofo.nxt)
    {
      hide Sender.Valid, Receiver.Valid, Agreed, Backed, Faithful, Keeps, Honest, AckTrue, Had, Received;
      InStep();
      Above(rcv);
      Paired();
      Buffered();
      var out, spans, _ := rcv.MakeReport(capacity);
      HonestAck(out, spans, rcv.ofo.store.held, rcv.ofo.nxt, old(rcv.notes).duplicate, rcv.dupAt);
      acks, told := acks + [Reply(rcv.ofo.recvAck, out)], told + [Ack(rcv.ofo.nxt, spans)];
      KeepsSame(rcv.ofo.store.held, rcv.ofo.nxt);
      ReceiverMoved();
    }

    /** The blocks are those of reply `k`, and none is half the sequence space old. */
    ghost predicate Recent(k: nat, blocks: seq<Block>)
      requires k < |acks| && |told| == |acks|
      reads this, snd.sack
    {
      && blocks == acks[k].blocks
      && forall i :: 0 <= i < |told[k].spans| ==>
           -HALF < told[k].spans[i].left - told[k].at && -HALF < told[k].spans[i].right - snd.sack.hd
    }

    /** Reply `k` arrives, carrying any blocks whatever: the stream stays safe, and the scoreboard
        stays true as long as the blocks are the reply's own and recent. */
    method RxAck(k: nat, blocks: seq<Block>, permitted: bool, classic: bool, smss: nat)
      requires k < |acks| == |told| && Valid() && smss < 0x10000 && -HALF <= told[k].at - snd.g.una < HALF
      modifies this`honest, snd, snd.buf, snd.sack
      ensures Valid() && rcv.delivered == old(rcv.delivered)
      ensures snd.g == if old(snd.g.una <= told[k].at <= snd.g.nxt) then old(snd.g).(una := told[k].at) else old(snd.g)
      ensures honest <==> old(honest && Recent(k, blocks)) ||
                          (old(snd.g.una <= told[k].at <= snd.g.nxt) && snd.sack.Blank())
    {
      hide Sender.Valid, Receiver.Valid, Agreed, Backed, Faithful, In, Had, AllSane, Learned, Newer, Reacted,
        Sender.Piped, SendBuffer.Packed;
      Paired();
      ghost var m, a, hd, was := told[k], told[k].at, snd.sack.hd, snd.sack.at;
      var r := acks[k];
      Reading(k);
      honest := honest && Recent(k, blocks);
      if honest && snd.g.una <= a <= snd.g.nxt {
        Near(m);
        HonestSane(r.ack, r.blocks, m.spans, a, hd);
      }
      var ok := snd.ProcessAck(r.ack, blocks, permitted, classic, smss, a);
      if ok && honest {
        Honoured(r.ack, blocks, m.spans, snd.sack.at, was, permitted && a < hd && !snd.sack.degraded,
                 rcv.ofo.store.held, rcv.ofo.nxt, a, hd);
      }
      if ok && !honest && snd.sack.Blank() {
        snd.NothingLeft();
        NothingSacked(rcv.ofo.store.held, rcv.ofo.nxt);
        honest := true;
      }
      AckTaken();
    }

    /** The peer's segments move the sender between states that leave its send side as it was. */
    method PeerMoves(next: Status)
      requires Valid() && (Open(next) <==> Open(snd.status)) && (snd.status == Closed ==> next == Closed)
      modifies snd`status
      ensures Valid() && snd.g == old(snd.g) && snd.status == next && rcv.delivered == old(rcv.delivered)
    {
      hide Sender.Valid, Receiver.Valid, Agreed, Backed;
      Buffered();
      snd.Transition(next);
      SenderMoved();
    }

    /** A recent segment is less than half the sequence space away. */
    lemma Timely(k: nat)
      requires Valid() && Dated() && k < |wire| && total - born[k] < LIFETIME
      ensures -HALF <= sent[k].pos - rcv.ofo.nxt < HALF
    {
      hide Sender.Valid, Receiver.Valid, Backed;
      Buffered();
      InStep();
      assert FromStream(snd.g, sent[k]);
    }

    lemma TimelyAck(k: nat)
      requires Valid() && Dated() && k < |acks| && total - made[k] < LIFETIME
      ensures -HALF <= told[k].at - snd.g.una < HALF
    {
      hide Sender.Valid, Receiver.Valid, Backed;
      Buffered();
      InStep();
      assert AckTrue(told[k], rcv.ofo.store.held, rcv.ofo.nxt);
    }

    /** The run goes on: nothing that was sent, accepted, delivered or read is taken back. */
    twostate predicate Onward()
      reads this`wire, this`acks, snd, rcv
    {
      && old(wire) <= wire && old(acks) <= acks && old(snd.g).accepted <= snd.g.accepted
      && old(rcv.delivered) <= rcv.delivered && old(rcv.read) <= rcv.read
    }

    lemma Own()
      requires Valid()
      ensures Apart()
    {
    }

    /** Where an ACK for `a` moves SND.UNA. */
    ghost function Moved(g: Ledger, a: int): int { if g.una <= a <= g.nxt then a else g.una }

    /** What a step does when its time has come. */
    twostate predicate Took(step: Step)
      reads this`wire, this`acks, this`sent, snd, snd.buf, rcv, rcv.ofo, rcv.ofo.store
    {
      var sends := |wire| == |old(wire)| + 1;
      match step
      case Write(data, sndWnd, wndValid) => Wrote(data, sndWnd, wndValid)
      case SendNew(sndWnd, cwnd, smss, mss, nodelay, appClosed, net) =>
        old(Owing(sndWnd, cwnd, smss, mss, nodelay, appClosed)) && net == Net(true, true) && mss < 0x10000 ==>
          sends && wire[|old(wire)|].sq == Wrap(old(snd.g).nxt) && snd.g.nxt > old(snd.g).nxt
      case Repair(cwnd, smss, mss, net) =>
        old(snd.Repeatable(snd.sack.rec.pending)) && net == Net(true, true) && 0 < mss < 0x10000 && smss < 0x10000 ==>
          sends && wire[|old(wire)|].sq == old(snd.sack.rec.pending.sq)
      case Finish(which, smss, enqueued) =>
        var early := old(snd.status in {Established, CloseWait} && snd.g.nxt == snd.g.End());
        var due := if which == 0 then early else if which == 1 then old(Late()) else old(Lone());
        enqueued && smss < 0x10000 && due ==> Ends()
      case Arrive(k) => k < |old(born)| && k < |sent| && old(total) - old(born)[k] < LIFETIME ==> Kept(k)
      case Read(len, failed, closed) =>
        len > 0 && !failed && old(rcv.read < rcv.delivered) ==> |rcv.read| > |old(rcv.read)|
      case Acknowledge(capacity) => |acks| == |old(acks)| + 1 && acks[|old(acks)|].ack == Wrap(rcv.ofo.nxt)
      case AckArrive(k, blocks, permitted, classic, smss) =>
        k < |old(made)| == |old(told)| && old(total) - old(made)[k] < LIFETIME && smss < 0x10000 ==>
          snd.g.una == Moved(old(snd.g), old(told)[k].at)
      case Peer(next) =>
        Open(next) == Open(old(snd.status)) && (old(snd.status) != Closed || next == Closed) ==> snd.status == next
    }

    /** The applications' part of a step, and the arrival of a segment. */
    method Local(step: Step)
      requires Valid() && Dated() && (step.Write? || step.Read? || step.Arrive?)
      modifies this`total, snd, snd.buf, rcv, rcv.ofo, rcv.ofo.owner, rcv.ofo.store.Repr()
      ensures Valid() && Dated() && Onward() && fresh(rcv.ofo.store.Repr() - old(rcv.ofo.store.Repr())) && Took(step)
    {
      hide Valid, Owing, Late, Wrote, Kept, Sender.Repeatable;
      Own();
      match step {
        case Arrive(k) =>
          if k < |wire| && total - born[k] < LIFETIME {
            Timely(k);
            Deliver(k);
          }
        case Read(len, failed, closed) => var _ := AppRecv(len, failed, closed);
        case Write(data, sndWnd, wndValid) =>
          var n := AppSend(data, sndWnd, wndValid);
          Own();
          total := total + if n > 0 then n else 0;
      }
    }

    /** The sender's part of a step. */
    method Send(step: Step)
      requires Valid() && Dated() && (step.SendNew? || step.Repair? || step.Finish?)
      modifies this`wire, this`sent, this`born, snd, snd.buf, snd.sack
      ensures Valid() && Dated() && Onward() && Took(step)
    {
      hide Valid, Owing, Late, Wrote, Sender.Repeatable;
      match step {
        case SendNew(sndWnd, cwnd, smss, mss, nodelay, appClosed, net) =>
          if mss < 0x10000 { TxNew(sndWnd, cwnd, smss, mss, nodelay, appClosed, net); }
        case Repair(cwnd, smss, mss, net) => if smss < 0x10000 && mss < 0x10000 { TxRecovery(cwnd, smss, mss, net); }
        case Finish(which, smss, enqueued) => if smss < 0x10000 { TxFin(which, smss, enqueued); }
      }
      Own();
      if |wire| > |born| {
        born := born + [total];
      }
    }

    /** The receiver answers. */
    method Answer(step: Step)
      requires Valid() && Dated() && step.Acknowledge?
      modifies this`acks, this`told, this`made, rcv`notes
      ensures Valid() && Dated() && Onward() && Took(step)
    {
      hide Valid;
      TxAck(step.capacity);
      Own();
      made := made + [total];
    }

    /** A reply arrives, or the peer's segments move the connection. */
    method Hear(step: Step)
      requires Valid() && Dated() && (step.AckArrive? || step.Peer?)
      modifies this`honest, snd, snd.buf, snd.sack
      ensures Valid() && Dated() && Onward() && Took(step)
    {
      hide Valid, Recent;
      match step {
        case AckArrive(k, blocks, permitted, classic, smss) =>
          if k < |acks| && total - made[k] < LIFETIME && smss < 0x10000 {
            TimelyAck(k);
            RxAck(k, blocks, permitted, classic, smss);
          }
        case Peer(next) =>
          if Open(next) == Open(snd.status) && (snd.status != Closed || next == Closed) { PeerMoves(next); }
      }
    }

    /** One step, if its time has come; segments and replies that are too old are lost. */
    method Act(step: Step)
      requires Valid() && Dated()
      modifies this, snd, snd.buf, snd.sack, rcv, rcv.ofo, rcv.ofo.owner, rcv.ofo.store.Repr()
      ensures Valid() && Dated() && Onward() && fresh(rcv.ofo.store.Repr() - old(rcv.ofo.store.Repr()))
      ensures Took(step) && taken == old(taken) + [step]
    {
      hide Valid, Dated, Took, Onward;
      Perform(step);
      Own();
      taken := taken + [step];
    }

    /** The step goes to the party it belongs to. */
    method Perform(step: Step)
      requires Valid() && Dated()
      modifies this`wire, this`acks, this`sent, this`told, this`honest, this`total, this`born, this`made
      modifies snd, snd.buf, snd.sack, rcv, rcv.ofo, rcv.ofo.owner, rcv.ofo.store.Repr()
      ensures Valid() && Dated() && Onward() && fresh(rcv.ofo.store.Repr() - old(rcv.ofo.store.Repr()))
      ensures Took(step)
    {
      hide Valid, Dated, Took, Onward;
      match step {
        case SendNew(_, _, _, _, _, _, _) => Send(step);
        case Repair(_, _, _, _) => Send(step);
        case Finish(_, _, _) => Send(step);
        case Acknowledge(_) => Answer(step);
        case AckArrive(_, _, _, _, _) => Hear(step);
        case Peer(_) => Hear(step);
        case _ => Local(step);
      }
    }

    /** Every run: whatever the applications, the network and the allocators do, in any order,
        the reader gets a prefix of what was written, and the end only after all of it. */
    method Run(script: seq<Step>)
      requires Valid() && Dated()
      modifies this, snd, snd.buf, snd.sack, rcv, rcv.ofo, rcv.ofo.owner, rcv.ofo.store.Repr()
      ensures Valid() && Dated() && Onward() && taken == old(taken) + script
      ensures rcv.read <= rcv.delivered <= snd.g.accepted && (rcv.eof ==> snd.g.fin && rcv.delivered == snd.g.accepted)
      ensures honest ==> forall p :: In(snd.sack.at, p) ==> Had(rcv.ofo.store.held, rcv.ofo.nxt, p)
    {
      hide Valid, Dated, Took;
      for i := 0 to |script|
        invariant Valid() && Dated() && Onward() && fresh(rcv.ofo.store.Repr() - old(rcv.ofo.store.Repr()))
        invariant taken == old(taken) + script[..i]
      {
        Act(script[i]);
        assert script[..i + 1] == script[..i] + [script[i]];
      }
      assert script[..|script|] == script;
      Safe();
    }

    /** A true report lies close to the flight. */
    lemma Near(m: Ack)
      requires Valid() && AckTrue(m, rcv.ofo.store.held, rcv.ofo.nxt) && snd.g.una <= m.at <= snd.g.nxt && snd.sack.sane
      requires forall i :: 0 <= i < |m.spans| ==>
                 -HALF < m.spans[i].left - m.at && -HALF < m.spans[i].right - snd.sack.hd
      ensures NearFlight(m.spans, m.at, snd.sack.hd)
    {
      hide Scoreboard.Valid, OfoStore.Store.Valid, Within, TotalBytes, Flat, SendBuffer.Content;
      forall i | 0 <= i < |m.spans|
        ensures m.spans[i].right <= snd.g.End() + 1
      {
        var q := m.spans[i].right - 1;
        assert Had(rcv.ofo.store.held, rcv.ofo.nxt, q);
        if q >= rcv.ofo.nxt { HeldBelow(snd.g, rcv.ofo.store.held, q); }
      }
    }

    /** Only acknowledged positions and the scoreboard changed. */
    twostate lemma AckTaken()
      requires old(Agreed()) && snd.g == old(snd.g).(una := snd.g.una)
      requires snd.status == old(snd.status) && (snd.status != Closed ==> snd.g.una <= rcv.ofo.nxt)
      requires
        && unchanged(rcv, rcv.ofo, rcv.ofo.store) && acks == old(acks) && told == old(told) && wire == old(wire)
        && sent == old(sent)
      requires honest ==> snd.sack.sane && SackedHad(snd.sack.at, rcv.ofo.store.held, rcv.ofo.nxt)
      ensures Agreed()
    {
      hide AckTrue, SegmentAt, ReplyAt, Had, Faithful, FromStream, Later;
      SameStream(old(snd.g), snd.g);
      FaithfulGrows(old(snd.g), snd.g, rcv.delivered, rcv.eof, rcv.ofo.store.held);
      forall i | 0 <= i < |wire|
        ensures FromStream(snd.g, sent[i])
      {
        StreamGrows(old(snd.g), snd.g, sent[i]);
      }
    }

    lemma Reading(k: nat)
      requires Valid() && k < |acks|
      ensures ReplyAt(acks[k], told[k]) && AckTrue(told[k], rcv.ofo.store.held, rcv.ofo.nxt)
      ensures snd.status != Closed ==> snd.g.una <= rcv.ofo.nxt
      ensures honest ==> snd.sack.sane && SackedHad(snd.sack.at, rcv.ofo.store.held, rcv.ofo.nxt)
    {
    }
  }

  ghost predicate NearFlight(spans: seq<Span>, a: int, hd: int) {
    && a <= hd + 1 && hd <= a + MAX_FLIGHT
    && forall i :: 0 <= i < |spans| ==>
         spans[i].left < spans[i].right && -HALF < spans[i].left - a < HALF && -HALF < spans[i].right - hd < HALF
  }

  lemma HeldBelow(g: Ledger, held: seq<Piece>, q: int)
    requires Covered(held, q) && forall p, b :: Has(held, p, b) ==> Written(g, p, b)
    ensures q < g.End()
  {
    CoveredHas(held, q);
    var b :| Has(held, q, b);
  }

  lemma LastWritten(g: Ledger, held: seq<Piece>, k: nat)
    requires k < |held| && held[k].data != [] && forall p, b :: Has(held, p, b) ==> Written(g, p, b)
    ensures held[k].End() <= g.End()
  {
    assert Covered(held, held[k].End() - 1);
    HeldBelow(g, held, held[k].End() - 1);
  }

  lemma SameStream(g: Ledger, h: Ledger)
    requires h == g.(una := h.una)
    ensures Later(g, h) && h.origin == g.origin
  {
  }

  lemma SaneAt(blocks: seq<Block>, spans: seq<Span>, a: int, hd: int, i: nat)
    requires Codes(blocks, spans) && NearFlight(spans, a, hd) && i < |blocks|
    ensures Sane(blocks[i], a, hd)
    ensures forall p :: Reports(blocks[i], a, hd, p) ==> spans[i].left <= p < spans[i].right
  {
    hide Wrap, ClipLeft, Sack.ClipRight, Sane;
    assert CodeAt(blocks[i], spans[i]);
    HonestBlock(spans[i].left, spans[i].right, a, hd);
  }

  lemma HonestSane(ack: u32, blocks: seq<Block>, spans: seq<Span>, a: int, hd: int)
    requires Codes(blocks, spans) && NearFlight(spans, a, hd)
    ensures AllSane(blocks, ack, a, hd)
  {
    hide Sane;
    forall i | 0 <= i < |blocks|
      ensures Sane(blocks[i], a, hd)
    {
      SaneAt(blocks, spans, a, hd, i);
    }
  }

  /** What a true report adds to the scoreboard was received. */
  lemma Honoured(ack: u32, blocks: seq<Block>, spans: seq<Span>, at: seq<Span>, was: seq<Span>, merged: bool,
                 held: seq<Piece>, nxt: int, a: int, hd: int)
    requires Codes(blocks, spans) && NearFlight(spans, a, hd) && SackedHad(was, held, nxt)
    requires forall i :: 0 <= i < |spans| ==> AllHad(held, nxt, spans[i])
    requires Learned(was, at, ack, blocks, merged, a, hd)
    ensures SackedHad(at, held, nxt)
  {
    hide Had, In, Reports, Sane, IsDsack;
    forall p | In(at, p)
      ensures Had(held, nxt, p)
    {
      if !In(was, p) {
        var i :| 0 <= i < |blocks| && Reports(blocks[i], a, hd, p);
        SaneAt(blocks, spans, a, hd, i);
        assert AllHad(held, nxt, spans[i]);
      }
    }
  }

  lemma HonestAck(out: seq<Block>, spans: seq<Span>, held: seq<Piece>, nxt: int, duplicate: bool, dupAt: Span)
    requires Honest(out, spans, held, nxt, duplicate, dupAt)
    ensures AckTrue(Ack(nxt, spans), held, nxt) && Codes(out, spans)
  {
  }

  lemma Whole(g: Ledger, delivered: seq<byte>, held: seq<Piece>)
    requires Faithful(g, delivered, true, held)
    ensures g.fin && delivered == g.accepted
  {
  }

  /** Between operations everything held lies at or above the next expected byte. */
  lemma Above(r: Receiver)
    requires r.Valid()
    ensures forall p, b :: Has(r.ofo.store.held, p, b) ==> r.ofo.nxt <= p
    ensures forall e :: FinAt(r.ofo.store.held, e) ==> r.ofo.nxt <= e
    ensures r.ofo.nxt == r.origin + |r.delivered| + (if r.eof then 1 else 0) && r.ofo.recvAck == Wrap(r.ofo.nxt)
  {
  }

  lemma SameStart(g: Ledger, h: Ledger)
    requires Later(g, h)
    ensures g.origin == h.origin
  {
  }
}
