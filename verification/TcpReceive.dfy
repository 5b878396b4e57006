/** Receive side of one TCP stream: acceptability, window clipping, in-order
    delivery, reads and end of file (pro-stack/tcp.c, tcp_ofo.c). */
module TcpReceive {
  import opened Serial
  import opened RbTree
  import opened OfoStore
  import opened Reassembly
  import opened TcpOfo
  import opened Octets
  import opened SackRanges
  import opened SackReport
  import SackLoss

  /** All bytes of a queue of blobs. */
  function Flat(q: seq<seq<byte>>): seq<byte> {
    if q == [] then [] else Flat(q[..|q| - 1]) + q[|q| - 1]
  }

  lemma FlatAppend(q: seq<seq<byte>>, x: seq<byte>)
    ensures Flat(q + [x]) == Flat(q) + x
  {
    assert (q + [x])[..|q|] == q;
  }

  lemma FlatEmpty()
    ensures Flat([]) == []
  {
  }

  lemma {:induction false} FlatFirst(q: seq<seq<byte>>)
    requires q != []
    ensures Flat(q) == q[0] + Flat(q[1..])
  {
    if |q| > 1 {
      var n := |q| - 1;
      FlatFirst(q[..n]);
      assert q[..n][1..] == q[1..][..n - 1];
      assert q[1..][n - 1] == q[n];
    } else {
      assert q[..0] == [] && q[1..] == [];
    }
  }

  /** `tcp_segment_acceptable` on 32-bit sequence numbers. */
  predicate Acceptable(rcvNxt: u32, wnd: u32, sq: u32, len: nat, fin: bool) {
    var segLen := len + if fin then 1 else 0;
    if wnd == 0 then segLen == 0 && sq == rcvNxt
    else if segLen == 0 then !Lt(sq, rcvNxt) && Lt(sq, Add32(rcvNxt, wnd))
    else Lt(sq, Add32(rcvNxt, wnd)) && Gt(Add32(sq, segLen), rcvNxt)
  }

  /** The acceptability test of section 3.3 of RFC 793 on stream positions. */
  predicate Intersects(nxt: int, wnd: int, x: Piece) {
    var segLen := |x.data| + if x.fin then 1 else 0;
    if wnd == 0 then segLen == 0 && x.pos == nxt
    else if segLen == 0 then nxt <= x.pos < nxt + wnd
    else x.pos < nxt + wnd && x.pos + segLen > nxt
  }

  lemma AcceptableIff(nxt: int, wnd: u32, x: Piece)
    requires wnd <= MAX_WINDOW && -HALF <= x.pos - nxt < HALF && |x.data| < 0x10000
    ensures Acceptable(Wrap(nxt), wnd, Wrap(x.pos), |x.data|, x.fin) <==> Intersects(nxt, wnd, x)
  {
    hide Wrap, Lt, Gt, Add32;
    var segLen := |x.data| + if x.fin then 1 else 0;
    AddWrap(nxt, wnd);
    AddWrap(x.pos, segLen);
    SerialOrder(x.pos, nxt);
    if x.pos >= nxt { SerialOrder(x.pos, nxt + wnd); }
    if x.pos < nxt + HALF - 0x10000 { SerialOrder(x.pos + segLen, nxt); }
    if x.pos < nxt && x.pos + segLen > nxt { SerialOrder(x.pos, nxt + wnd); }
  }

  /** What one segment may change: `d` is newly delivered, `l0` was held at `n0`,
      `l` is held at `n`; `x` is the part of the segment in the window. */
  ghost predicate Got(l0: seq<Piece>, n0: int, l: seq<Piece>, n: int, eof: bool, d: seq<byte>, x: Piece,
                      whole: bool) {
    && (forall i :: 0 <= i < |d| ==> Has(l0, n0 + i, d[i]) || x.Has(n0 + i, d[i]))
    && (eof ==> l == [] && n == n0 + |d| + 1 && (FinAt(l0, n - 1) || (x.fin && x.End() == n - 1)))
    && (!eof ==> n == n0 + |d| && forall e :: n <= e && FinAt(l, e) ==> FinAt(l0, e) || (x.fin && x.End() == e))
    && (!eof ==> forall e :: n <= e && FinAt(l0, e) ==> FinAt(l, e))
    && (!eof ==> forall p, b :: n <= p && Has(l, p, b) ==> Has(l0, p, b) || x.Has(p, b))
    && (!eof ==> forall p, b :: n <= p && Has(l0, p, b) ==> Has(l, p, b))
    && (!eof && whole ==> forall p, b :: n <= p && x.Has(p, b) ==> Covered(l, p))
  }

  /** And its FIN is not lost. */
  ghost predicate Received(l0: seq<Piece>, n0: int, l: seq<Piece>, n: int, eof: bool, d: seq<byte>, x: Piece,
                           whole: bool) {
    && Got(l0, n0, l, n, eof, d, x, whole)
    && (!eof && whole && x.fin && n <= x.End() && FinKept(l0, x) ==> FinAt(l, x.End()))
  }

  /** The FIN of `x` is on the list `l`, unless `was` holds octets around it. */
  ghost predicate FinNoted(was: seq<Piece>, l: seq<Piece>, x: Piece) {
    x.fin && FinKept(was, x) ==> FinAt(l, x.End())
  }

  lemma GotMerge(l0: seq<Piece>, l1: seq<Piece>, x: Piece, upto: int, n0: int, l: seq<Piece>, n: int, d: seq<byte>,
                 whole: bool)
    requires Blended(l0, l1, x, upto) && Taken(l1, n0, l, n, d) && (whole ==> upto == x.End())
    ensures Got(l0, n0, l, n, false, d, x, whole)
    ensures FinNoted(l0, l1, x) || !whole ==> Received(l0, n0, l, n, false, d, x, whole)
  {
    forall p, b | n <= p && x.Has(p, b) && upto >= x.End()
      ensures Covered(l, p)
    {
      CoveredHas(l1, p);
      CoveredHas(l, p);
      var c :| Has(l1, p, c);
      assert Has(l, p, c);
    }
  }

  lemma GotMergeEnd(l0: seq<Piece>, l1: seq<Piece>, x: Piece, upto: int, n0: int, was: seq<byte>, now: seq<byte>,
                    whole: bool)
    requires Blended(l0, l1, x, upto) && was <= now && FinAt(l1, n0 + |now| - |was|)
    requires forall i :: |was| <= i < |now| ==> Has(l1, n0 + i - |was|, now[i])
    ensures Received(l0, n0, [], n0 + |now| - |was| + 1, true, now[|was|..], x, whole)
  {
    var d := now[|was|..];
    forall i | 0 <= i < |d|
      ensures Has(l0, n0 + i, d[i]) || x.Has(n0 + i, d[i])
    {
      assert d[i] == now[|was| + i];
      assert Has(l1, n0 + i, d[i]);
    }
  }

  lemma GotWeaken(l0: seq<Piece>, n0: int, l: seq<Piece>, n: int, eof: bool, d: seq<byte>, x: Piece, whole: bool,
                  less: bool)
    requires Got(l0, n0, l, n, eof, d, x, whole) && (less ==> whole)
    ensures Got(l0, n0, l, n, eof, d, x, less)
    ensures Received(l0, n0, l, n, eof, d, x, whole) ==> Received(l0, n0, l, n, eof, d, x, less)
  {
  }

  lemma ReceivedDirect(l0: seq<Piece>, n0: int, x: Piece, l: seq<Piece>, n: int, d: seq<byte>)
    requires x.pos == n0 && !x.fin && Taken(l0, x.End(), l, n, d)
    ensures Received(l0, n0, l, n, false, x.data + d, x, true)
  {
    var e := x.data + d;
    forall i | 0 <= i < |e|
      ensures Has(l0, n0 + i, e[i]) || x.Has(n0 + i, e[i])
    {
      if i >= |x.data| { assert e[i] == d[i - |x.data|]; }
    }
  }

  lemma ReceivedNothing(l: seq<Piece>, n: int)
    ensures Received(l, n, l, n, false, [], Piece(n, [], false), true)
  {
  }

  lemma ReceivedFin(l0: seq<Piece>, n0: int, x: Piece)
    requires x.pos == n0 && x.fin
    ensures Received(l0, n0, [], x.End() + 1, true, x.data, x, true)
  {
  }

  lemma ReceivedEnd(l0: seq<Piece>, n0: int, x: Piece, was: seq<byte>, now: seq<byte>)
    requires x.pos == n0 && was <= now && FinAt(l0, x.End() + |now| - |was|)
    requires forall i :: |was| <= i < |now| ==> Has(l0, x.End() + i - |was|, now[i])
    ensures Received(l0, n0, [], x.End() + |now| - |was| + 1, true, x.data + now[|was|..], x, true)
  {
    var e := x.data + now[|was|..];
    forall i | 0 <= i < |e|
      ensures Has(l0, n0 + i, e[i]) || x.Has(n0 + i, e[i])
    {
      if i >= |x.data| { assert e[i] == now[|was| + i - |x.data|]; }
    }
  }

  /** The comparisons that clip an acceptable segment on the right. */
  lemma ClipCompare(nxt: int, wnd: u32, s: Piece)
    requires wnd <= MAX_WINDOW && -HALF <= s.pos - nxt < HALF && |s.data| < 0x10000 && Intersects(nxt, wnd, s)
    ensures
      var wndEnd, dataEnd := Add32(Wrap(nxt), wnd), Add32(Wrap(s.pos), |s.data|);
      && (Gt(dataEnd, wndEnd) <==> s.End() > nxt + wnd) && (Lt(dataEnd, wndEnd) <==> s.End() < nxt + wnd)
      && (s.pos <= nxt + wnd ==> Sub32(wndEnd, Wrap(s.pos)) == nxt + wnd - s.pos)
      && (Wrap(s.pos) == Wrap(nxt) <==> s.pos == nxt)
  {
    hide Wrap, Lt, Gt, Add32, Sub32;
    AddWrap(nxt, wnd);
    AddWrap(s.pos, |s.data|);
    SerialOrder(s.End(), nxt + wnd);
    SerialOrder(nxt + wnd, s.pos);
    SerialOrder(s.pos, nxt);
  }

  /** The receive window cuts a segment on the right: `tcp_receive_stream_range`. */
  method ClipRight(recvAck: u32, wnd: u32, sq: u32, payload: seq<byte>, hasFin: bool, ghost nxt: int, ghost s: Piece)
    returns (data: seq<byte>, fin: bool)
    requires recvAck == Wrap(nxt) && sq == Wrap(s.pos) && s.data == payload && s.fin == hasFin
    requires wnd <= MAX_WINDOW && -HALF <= s.pos - nxt < HALF && |payload| < 0x10000 && Intersects(nxt, wnd, s)
    ensures s.pos <= nxt + wnd && data == if s.End() > nxt + wnd then payload[..nxt + wnd - s.pos] else payload
    ensures fin == (hasFin && s.End() < nxt + wnd)
  {
    ClipCompare(nxt, wnd, s);
    hide Lt, Gt, Add32, Sub32, Wrap;
    var wndEnd, dataEnd := Add32(recvAck, wnd), Add32(sq, |payload|);
    data, fin := payload, hasFin;
    if Gt(dataEnd, wndEnd) {
      data := data[..Sub32(wndEnd, sq)];
      fin := false;
    } else if fin && !Lt(dataEnd, wndEnd) {
      fin := false;
    }
  }

  /** Nothing held lies at or beyond `n`. */
  ghost predicate NoneBeyond(l: seq<Piece>, n: int) {
    forall q :: Covered(l, q) ==> q < n
  }

  /** Nothing that was received is given up, unless the stream ended in front of it. */
  ghost predicate Preserved(l0: seq<Piece>, n0: int, l: seq<Piece>, n: int, eof: bool) {
    !eof || NoneBeyond(l0, n) ==> Keeps(l0, n0, l, n)
  }

  /** A segment makes the receiver give up nothing it had, except what lies beyond the end. */
  lemma KeepsReceived(l0: seq<Piece>, n0: int, l: seq<Piece>, n: int, eof: bool, d: seq<byte>, x: Piece, whole: bool)
    requires Got(l0, n0, l, n, eof, d, x, whole) && (eof ==> NoneBeyond(l0, n))
    ensures Keeps(l0, n0, l, n)
  {
    forall q | Had(l0, n0, q)
      ensures Had(l, n, q)
    {
      if q >= n { KeepsAt(l0, l, n, q); }
    }
  }

  lemma KeepsAt(l0: seq<Piece>, l: seq<Piece>, n: int, q: int)
    requires Covered(l0, q) && n <= q && forall p, b :: n <= p && Has(l0, p, b) ==> Has(l, p, b)
    ensures Covered(l, q)
  {
    hide Has, Covered;
    CoveredHas(l0, q);
    CoveredHas(l, q);
  }

  /** Neither does a drain. */
  lemma KeepsTaken(l0: seq<Piece>, n0: int, l: seq<Piece>, n: int, d: seq<byte>)
    requires Taken(l0, n0, l, n, d)
    ensures Keeps(l0, n0, l, n)
  {
    forall q | Had(l0, n0, q)
      ensures Had(l, n, q)
    {
      if q >= n { KeepsAt(l0, l, n, q); }
    }
  }

  lemma KeepsEnded(l0: seq<Piece>, n0: int, n: int)
    requires NoneBeyond(l0, n) && n0 <= n
    ensures Keeps(l0, n0, [], n)
  {
  }

  /** A drain is a segment that brings nothing. */
  lemma AfterDrain(l0: seq<Piece>, n0: int, l: seq<Piece>, n: int, eof: bool, was: seq<byte>, now: seq<byte>)
    requires was <= now && (!eof ==> Taken(l0, n0, l, n, now[|was|..]))
    requires eof ==>
               && l == [] && n == n0 + |now| - |was| + 1 && FinAt(l0, n - 1)
               && forall i :: |was| <= i < |now| ==> Has(l0, n0 + i - |was|, now[i])
    ensures Preserved(l0, n0, l, n, eof)
    ensures Received(l0, n0, l, n, eof, now[|was|..], Piece(n0, [], false), true)
  {
    hide Has, Taken, FinAt, Keeps, Received, NoneBeyond;
    var d := now[|was|..];
    assert [] + d == d;
    if !eof {
      KeepsTaken(l0, n0, l, n, d);
      ReceivedDirect(l0, n0, Piece(n0, [], false), l, n, d);
    } else {
      if NoneBeyond(l0, n) { KeepsEnded(l0, n0, n); }
      ReceivedEnd(l0, n0, Piece(n0, [], false), was, now);
    }
  }

  lemma KeptSame(l: seq<Piece>, n: int)
    ensures Preserved(l, n, l, n, true)
  {
  }

  lemma KeepsSame(l: seq<Piece>, n: int)
    ensures Keeps(l, n, l, n)
  {
  }

  lemma StillBacked(notes: Notes, dupAt: Span, l0: seq<Piece>, n0: int, l: seq<Piece>, n: int)
    requires Backed(notes, dupAt, l0, n0) && Keeps(l0, n0, l, n)
    ensures Backed(notes, dupAt, l, n)
  {
    if notes.duplicate { KeepsAll(l0, n0, l, n, dupAt); }
  }

  lemma Unnoted(notes: Notes, dupAt: Span, l: seq<Piece>, n: int)
    requires !notes.duplicate
    ensures Backed(notes, dupAt, l, n)
  {
  }

  lemma PurgedBacked(notes: Notes, dupAt: Span, l: seq<Piece>, n: int)
    ensures Backed(Purged(notes), dupAt, l, n)
  {
  }

  lemma HonestNone(held: seq<Piece>, nxt: int, duplicate: bool, dupAt: Span)
    ensures Honest([], [], held, nxt, duplicate, dupAt)
  {
  }

  lemma CoveredNone()
    ensures forall q :: !Covered([], q)
  {
  }

  /** What `tcp_recv` returns; 0 is the end of the stream, EAGAIN asks to wait. */
  datatype ReadResult = Bytes(data: seq<byte>) | EndOfFile | Again | Failed

  class Receiver {
    const ofo: OfoQueue
    var rx: seq<seq<byte>>     // delivered blobs not yet opened by a read
    var current: seq<byte>     // unread rest of the blob being read
    var eof: bool
    var permitted: bool        // both sides offered SACK
    var notes: Notes           // for the next SACK report
    ghost var dupAt: Span      // octets of the noted D-SACK
    ghost var origin: int      // position of the first stream byte
    ghost var delivered: seq<byte>
    ghost var read: seq<byte>
    ghost var undelivered: nat // deliveries the allocator turned away

    constructor (irs: u32, size: nat, permit: bool, owner: Owner)
      requires size <= MAX_WINDOW && owner.bytes <= OWNER_MAX_BYTES
      ensures
        && Valid() && notes == NO_NOTES && permitted == permit && !eof && delivered == [] && read == []
        && origin == irs && ofo.bytes == 0 && ofo.count == 0 && ofo.store.held == [] && ofo.nxt == irs
      ensures fresh(ofo) && fresh(ofo.store.Repr()) && ofo.owner == owner && ofo.size == size
    {
      hide Store.Valid, Ordered, AllSolid, Within, TotalBytes;
      ofo := new OfoQueue(irs, size, owner);
      rx, current, eof := [], [], false;
      permitted, notes, dupAt := permit, NO_NOTES, Span(0, 0);
      origin, delivered, read := irs, [], [];
    }

    /** Delivered bytes are read or queued, none is lost or repeated; the next
        expected position counts them and the peer's FIN. */
    ghost predicate Fed()
      reads this`rx, this`current, this`delivered, this`read, this`eof, this`origin, ofo
    {
      && delivered == read + current + Flat(rx) && (forall i :: 0 <= i < |rx| ==> rx[i] != [])
      && ofo.nxt == origin + |delivered| + (if eof then 1 else 0)
      && ofo.used - ofo.bytes == |current| + |Flat(rx)|
    }

    /** How often a limit or the allocator turned something away. */
    ghost function Refusals(): nat
      reads this, ofo
    {
      undelivered + ofo.refused
    }

    /** `tcp_deliver_payload`: queue one blob, or fail without a trace. */
    method Deliver(data: seq<byte>) returns (ok: bool, ghost granted: bool)
      modifies this`rx, this`undelivered, this`delivered
      ensures !ok ==> rx == old(rx) && delivered == old(delivered)
      ensures ok <==> data == [] || (|data| <= 2048 && granted)
      ensures undelivered == old(undelivered) + if ok then 0 else 1
      ensures ok ==> Flat(rx) == Flat(old(rx)) + data && delivered == old(delivered) + data
      ensures (forall i :: 0 <= i < |old(rx)| ==> old(rx)[i] != []) ==> forall i :: 0 <= i < |rx| ==> rx[i] != []
    {
      ok, granted := true, true;
      if data == [] {
        return;
      }
      var storage: bool := *;
      granted := storage;
      if |data| > CHUNK_SIZE || !storage {
        undelivered := undelivered + 1;
        return false, granted;
      }
      FlatAppend(rx, data);
      rx := rx + [data];
      delivered := delivered + data;
    }

    /** How far a drain has come since the state `l0` at `n0`. */
    ghost predicate Draining(lo: int, hi: int, l0: seq<Piece>, n0: int, was: seq<byte>)
      reads this, ofo, ofo.owner`bytes, ofo.owner`segments, ofo.store, ofo.store.Repr(), ofo.store.chain.nodes
    {
      && this !in ofo.store.Repr()
      && ofo.Rough(lo) && Fed() && !eof && lo <= ofo.nxt <= hi <= lo + REACH
      && Within(ofo.store.held, lo, hi)
      && was <= delivered && Taken(l0, n0, ofo.store.held, ofo.nxt, delivered[|was|..])
    }

    /** The same when the head starts exactly at `nxt` and is about to leave. */
    ghost predicate AtHead(lo: int, hi: int, l0: seq<Piece>, n0: int, was: seq<byte>)
      reads this, ofo, ofo.owner`bytes, ofo.owner`segments, ofo.store, ofo.store.Repr(), ofo.store.chain.nodes
    {
      && this !in ofo.store.Repr()
      && ofo.Leaving(lo) && Fed() && !eof && lo <= ofo.nxt <= hi <= lo + REACH
      && Within(ofo.store.held, lo, hi)
      && was <= delivered && Taken(l0, n0, ofo.store.held, ofo.nxt, delivered[|was|..])
      && ofo.bytes <= ofo.used && ofo.store.held[0].pos == ofo.nxt
      && (ofo.store.held[0].data != [] ==> ofo.Rough(lo))
    }

    /** And the order is as good as that allows. */
    ghost predicate TidyHead()
      reads ofo.store, ofo.store.index, ofo.store.chain
    {
      ofo.Straight() && (ofo.store.held[0].data != [] ==> ofo.Neat())
    }

    /** The head lies below `nxt`: discard it. */
    method DropStale(ghost lo: int, ghost hi: int, ghost l0: seq<Piece>, ghost n0: int,
                     ghost was: seq<byte>)
      requires Draining(lo, hi, l0, n0, was) && ofo.store.held != []
      requires ofo.store.held[0].End() <= ofo.nxt && (ofo.store.held[0].fin ==> ofo.store.held[0].End() < ofo.nxt)
      modifies ofo, ofo.owner, ofo.store.Repr()
      ensures Draining(lo, hi, l0, n0, was) && (old(ofo.Neat()) ==> ofo.Neat())
      ensures
        && ofo.size == old(ofo.size) && ofo.refused == old(ofo.refused) && ofo.SameOthers()
        && ofo.store.Repr() <= old(ofo.store.Repr()) && |ofo.store.held| < |old(ofo.store.held)|
    {
      hide Store.Loose, Store.HeadLoose, Ordered, AllSolid, Within, TotalBytes, Taken, FinAt, OfoQueue.Leaving;
      ofo.Head(lo);
      WithinTail(ofo.store.held, lo, hi);
      TakenDrop(l0, n0, ofo.store.held, ofo.nxt, delivered[|was|..]);
      var len := |ofo.store.chain.head.seg.data|;
      ofo.ReleaseHead(len, lo);
      ofo.Unlink(lo);
    }

    /** The head straddles `nxt`: cut it there. */
    method CutStale(skip: nat, ghost lo: int, ghost hi: int, ghost l0: seq<Piece>, ghost n0: int,
                    ghost was: seq<byte>)
      requires Draining(lo, hi, l0, n0, was) && ofo.store.held != [] && ofo.store.held[0].pos < ofo.nxt
      requires skip == ofo.nxt - ofo.store.held[0].pos
      requires skip < |ofo.store.held[0].data| || (skip == |ofo.store.held[0].data| && ofo.store.held[0].fin)
      modifies ofo, ofo.owner, ofo.store.Repr()
      ensures AtHead(lo, hi, l0, n0, was) && (old(ofo.Neat()) ==> TidyHead())
      ensures
        && ofo.size == old(ofo.size) && ofo.refused == old(ofo.refused) && ofo.SameOthers()
        && ofo.store.Repr() == old(ofo.store.Repr()) && |ofo.store.held| == |old(ofo.store.held)|
    {
      hide Store.Loose, Store.HeadLoose, Ordered, AllSolid, Within, TotalBytes, Taken, FinAt;
      TakenTrim(l0, n0, ofo.store.held, ofo.nxt, delivered[|was|..]);
      WithinTrim(ofo.store.held, skip, lo, hi);
      ofo.TrimHead(skip, lo);
    }

    /** The stream ended: every byte before the FIN was delivered, nothing is buffered. */
    ghost predicate Ended(lo: int, l0: seq<Piece>, n0: int, was: seq<byte>)
      reads this, ofo, ofo.owner`bytes, ofo.owner`segments, ofo.store, ofo.store.Repr(), ofo.store.chain.nodes
    {
      && this !in ofo.store.Repr()
      && ofo.Rough(lo) && Fed() && eof && ofo.store.held == []
      && was <= delivered && (forall i :: |was| <= i < |delivered| ==> Has(l0, n0 + i - |was|, delivered[i]))
      && FinAt(l0, ofo.nxt - 1) && ofo.nxt == n0 + |delivered| - |was| + 1
    }

    /** The notes stay, unless the stream ends here. */
    twostate predicate Forgotten()
      reads this
    {
      notes == if eof && !old(eof) then Purged(old(notes)) else old(notes)
    }

    /** A FIN became contiguous: count it, note the end of file, purge. */
    method EndStream(ghost lo: int)
      requires this !in ofo.store.Repr() && ofo.Rough(lo) && Fed() && !eof
      modifies this`eof, this`notes, ofo, ofo.owner, ofo.store.Repr()
      ensures notes == Purged(old(notes)) && !notes.recentValid && !notes.duplicate && notes.history == []
      ensures this !in ofo.store.Repr() && ofo.Rough(lo) && Fed() && eof && ofo.store.held == []
      ensures ofo.nxt == old(ofo.nxt) + 1
      ensures
        && ofo.size == old(ofo.size) && ofo.refused == old(ofo.refused) && ofo.SameOthers()
        && ofo.store.Repr() <= old(ofo.store.Repr())
    {
      hide Store.Loose, AllSolid, Within, TotalBytes, Flat;
      ofo.Advance(1, lo);
      eof := true;
      ofo.Purge(lo);
      notes := Purged(notes);
    }

    /** Deliver the head; on success unlink it and move on. */
    method TakeHead(ghost lo: int, ghost hi: int, ghost l0: seq<Piece>, ghost n0: int,
                    ghost was: seq<byte>)
      returns (ok: bool)
      requires AtHead(lo, hi, l0, n0, was)
      modifies this`rx, this`undelivered, this`delivered, this`eof, this`notes, ofo, ofo.owner, ofo.store.Repr()
      ensures Forgotten()
      ensures
        && ofo.size == old(ofo.size) && ofo.refused == old(ofo.refused) && ofo.SameOthers()
        && ofo.store.Repr() <= old(ofo.store.Repr())
      ensures !ok ==> Draining(lo, hi, l0, n0, was) && ofo.store.held != [] && ofo.store.held[0].pos == ofo.nxt
      ensures ok && !eof ==> Draining(lo, hi, l0, n0, was) && |ofo.store.held| < |old(ofo.store.held)|
      ensures old(TidyHead()) && !eof ==> ofo.Neat()
      ensures ok && eof ==> Ended(lo, l0, n0, was)
      ensures undelivered == old(undelivered) + if ok then 0 else 1
    {
      hide Store.Loose, Store.HeadLoose, Ordered, AllSolid, Within, TotalBytes, Taken, FinAt, Has, Flat;
      ofo.store.HeadSeg();
      var data, fin := ofo.store.chain.head.seg.data, ofo.store.chain.head.seg.fin;
      ok := true;
      if data != [] {
        ghost var granted;
        ok, granted := Deliver(data);
        if !ok {
          return;
        }
      }
      assert delivered[|delivered| - |data|..] == data;
      assert delivered[|was|..|delivered| - |data|] == old(delivered)[|was|..];
      RetireHead(data, fin, lo, hi, l0, n0, was);
    }

    /** Unlink the head, whose payload was just delivered. */
    method RetireHead(data: seq<byte>, fin: bool, ghost lo: int, ghost hi: int, ghost l0: seq<Piece>,
                      ghost n0: int, ghost was: seq<byte>)
      requires
        && this !in ofo.store.Repr() && ofo.Leaving(lo) && !eof && lo <= ofo.nxt <= hi <= lo + REACH
        && Within(ofo.store.held, lo, hi)
      requires ofo.store.held[0] == Piece(ofo.nxt, data, fin) && was <= delivered
      requires |delivered| >= |was| + |data| && delivered[|delivered| - |data|..] == data
      requires Taken(l0, n0, ofo.store.held, ofo.nxt, delivered[|was|..|delivered| - |data|])
      requires
        && delivered == read + current + Flat(rx) && (forall i :: 0 <= i < |rx| ==> rx[i] != [])
        && ofo.nxt + |data| == origin + |delivered|
      requires ofo.used - ofo.bytes + |data| == |current| + |Flat(rx)|
      modifies this`eof, this`notes, ofo, ofo.owner, ofo.store.Repr()
      ensures Forgotten()
      ensures
        && ofo.size == old(ofo.size) && ofo.refused == old(ofo.refused) && ofo.SameOthers()
        && ofo.store.Repr() <= old(ofo.store.Repr())
      ensures !eof ==> Draining(lo, hi, l0, n0, was) && |ofo.store.held| < |old(ofo.store.held)|
      ensures !eof && old(ofo.Straight()) ==> ofo.Neat()
      ensures eof ==> Ended(lo, l0, n0, was)
    {
      hide Store.Loose, Store.HeadLoose, Ordered, AllSolid, Within, TotalBytes, Taken, FinAt, Has, Flat;
      ghost var held, d := ofo.store.held, delivered[|was|..|delivered| - |data|];
      assert delivered[|was|..] == d + data;
      WithinHead(held, lo, hi);
      WithinTail(held, lo, hi);
      ofo.Unlink(lo);
      ofo.Advance(|data|, lo);
      if fin {
        TakenLast(l0, n0, held, old(ofo.nxt), d);
        EndStream(lo);
        forall i | |was| <= i < |delivered|
          ensures Has(l0, n0 + i - |was|, delivered[i])
        {
          assert delivered[i] == (d + data)[i - |was|];
        }
      } else {
        TakenTake(l0, n0, held, old(ofo.nxt), d);
      }
    }

    /** Everything the receiver keeps between operations. */
    ghost predicate Valid()
      reads this`rx, this`current, this`delivered, this`read, this`eof, this`origin
      reads ofo, ofo.owner`bytes, ofo.owner`segments, ofo.store, ofo.store.Repr(), ofo.store.chain.nodes
    {
      && this !in ofo.store.Repr()
      && ofo.Valid() && Fed() && (eof ==> ofo.store.held == [])
    }

    /** The same without any order of the list, and with stale pieces not below `lo`. */
    ghost predicate Ready(lo: int)
      reads this`rx, this`current, this`delivered, this`read, this`eof, this`origin
      reads ofo, ofo.owner`bytes, ofo.owner`segments, ofo.store, ofo.store.Repr(), ofo.store.chain.nodes
    {
      && this !in ofo.store.Repr()
      && ofo.Rough(lo) && Fed() && (eof ==> ofo.store.held == [])
    }

    lemma ValidReady()
      requires Valid()
      ensures Ready(ofo.nxt) && ofo.Near(ofo.nxt) && ofo.Neat()
    {
      ofo.Plain();
    }

    /** In good order with nothing stale. */
    lemma ReadyValid(lo: int)
      requires Ready(lo) && ofo.Neat() && (ofo.store.held != [] ==> ofo.store.held[0].pos >= ofo.nxt)
      ensures Valid()
    {
      hide TotalBytes, AllSolid;
      forall i | 0 <= i < |ofo.store.held|
        ensures ofo.nxt <= ofo.store.held[i].pos
      {
        if i > 0 { assert ofo.store.held[0].End() <= ofo.store.held[i].pos; }
      }
      ofo.Smooth(ofo.nxt);
    }

    lemma EmptyValid(lo: int)
      requires Ready(lo) && ofo.store.held == []
      ensures Valid()
    {
      ofo.Emptied(lo);
      ReadyValid(lo);
    }

    /** `tcp_ofo_drain`: deliver what has become contiguous. */
    method Drain(ghost lo: int) returns (ok: bool)
      requires Ready(lo) && lo <= ofo.nxt <= lo + HALF / 2 + MAX_WINDOW
      modifies this`rx, this`undelivered, this`delivered, this`eof, this`notes, ofo, ofo.owner, ofo.store.Repr()
      ensures Forgotten()
      ensures
        && Ready(lo) && ofo.size == old(ofo.size) && ofo.refused == old(ofo.refused) && ofo.SameOthers()
        && ofo.store.Repr() <= old(ofo.store.Repr()) && old(delivered) <= delivered
      ensures old(ofo.Neat()) || eof ==> Valid()
      ensures old(eof) ==> eof && delivered == old(delivered) && rx == old(rx) && ofo.nxt == old(ofo.nxt)
      ensures !eof ==>
                Taken(old(ofo.store.held), old(ofo.nxt), ofo.store.held, ofo.nxt, delivered[|old(delivered)|..])
      ensures !eof && ok ==> ofo.store.held == [] || ofo.store.held[0].pos > ofo.nxt
      ensures undelivered == old(undelivered) + if ok then 0 else 1
      ensures eof && !old(eof) ==> Ended(lo, old(ofo.store.held), old(ofo.nxt), old(delivered))
    {
      hide Store.Loose, Store.HeadLoose, Ordered, AllSolid, Within, TotalBytes, Taken, FinAt, Has, Flat, Wrap, Lt, Gt;
      hide Sub32, Valid;
      ghost var l0, n0, was, neat := ofo.store.held, ofo.nxt, delivered, ofo.Neat();
      ghost var hi := ofo.nxt + ofo.size;
      ofo.Head(lo);
      ok := true;
      if eof {
        EmptyValid(lo);
        return;
      }
      TakenRefl(l0, n0);
      assert delivered[|was|..] == [];
      while ofo.store.chain.head != null
        invariant
          && Draining(lo, hi, l0, n0, was) && ofo.size == old(ofo.size) && ofo.refused == old(ofo.refused)
          && ofo.SameOthers() && ofo.store.Repr() <= old(ofo.store.Repr()) && (neat ==> ofo.Neat())
        invariant ofo.store.chain.head == null <==> ofo.store.held == []
        invariant ok && undelivered == old(undelivered) && notes == old(notes)
        invariant ofo.store.held != [] ==> ofo.Leaving(lo) && ofo.store.chain.head.seg == Coded(ofo.store.held[0])
        invariant ofo.store.held != [] && neat ==> ofo.Straight()
        decreases |ofo.store.held|
      {
        var seg := ofo.store.chain.head.seg;
        WithinHead(ofo.store.held, lo, hi);
        SerialOrder(ofo.store.held[0].pos, ofo.nxt);
        SerialOrder(ofo.nxt, ofo.store.held[0].pos);
        if Gt(seg.start, ofo.recvAck) {
          break;
        }
        if Lt(seg.start, ofo.recvAck) {
          var skip := Sub32(ofo.recvAck, seg.start);
          if skip > |seg.data| || (skip == |seg.data| && !seg.fin) {
            DropStale(lo, hi, l0, n0, was);
            ofo.Head(lo);
            continue;
          }
          CutStale(skip, lo, hi, l0, n0, was);
        }
        ok := TakeHead(lo, hi, l0, n0, was);
        if !ok {
          if neat { ReadyValid(lo); }
          return;
        }
        if eof {
          EmptyValid(lo);
          return;
        }
        ofo.Head(lo);
      }
      if neat { ReadyValid(lo); }
    }

    /** An in-order segment is delivered directly, without passing the out-of-order list. */
    method ReceiveDirect(payload: seq<byte>, fin: bool, ghost x: Piece, ghost lo: int)
      returns (ok: bool, ghost whole: bool)
      requires Ready(lo) && ofo.Near(lo) && !eof && x == Piece(ofo.nxt, payload, fin) && |payload| <= ofo.Window()
      requires |payload| < 0x10000
      modifies this`rx, this`undelivered, this`delivered, this`eof, this`notes, ofo, ofo.owner, ofo.store.Repr()
      ensures Forgotten()
      ensures
        && Ready(lo) && ofo.size == old(ofo.size) && ofo.refused == old(ofo.refused) && ofo.SameOthers()
        && ofo.store.Repr() <= old(ofo.store.Repr())
      ensures old(delivered) <= delivered && (old(Valid()) ==> Valid())
      ensures !ok ==>
                && !eof && delivered == old(delivered) && ofo.nxt == old(ofo.nxt)
                && ofo.store.held == old(ofo.store.held) && ofo.Window() == old(ofo.Window())
      ensures ok ==>
                Received(old(ofo.store.held), old(ofo.nxt), ofo.store.held, ofo.nxt, eof,
                         delivered[|old(delivered)|..], x, true)
      ensures ok && whole && !eof ==> ofo.store.held == [] || ofo.store.held[0].pos > ofo.nxt
      ensures undelivered == old(undelivered) + if ok && whole then 0 else 1
    {
      hide Store.Loose, Store.Valid, Ordered, AllSolid, Within, TotalBytes, Flat, FinAt, Has, Taken, Received;
      ghost var was, valid := delivered, Valid();
      if valid { ValidReady(); }
      ok, whole := true, true;
      if payload != [] {
        ghost var granted;
        ok, granted := Deliver(payload);
        if !ok {
          return;
        }
      }
      ofo.Raise(|payload|, lo);
      whole := Follow(fin, x, was, lo);
    }

    /** After an in-order segment: end the stream, or drain. */
    method Follow(fin: bool, ghost x: Piece, ghost was: seq<byte>, ghost lo: int) returns (whole: bool)
      requires Ready(lo) && lo <= x.pos <= lo + HALF / 2 && !eof && ofo.nxt == x.End() && |x.data| < 0x10000
      requires x.fin == fin && delivered == was + x.data
      modifies this`rx, this`undelivered, this`delivered, this`eof, this`notes, ofo, ofo.owner, ofo.store.Repr()
      ensures Forgotten()
      ensures
        && Ready(lo) && ofo.size == old(ofo.size) && ofo.refused == old(ofo.refused) && ofo.SameOthers()
        && ofo.store.Repr() <= old(ofo.store.Repr()) && was <= delivered && (old(ofo.Neat()) ==> Valid())
      ensures Received(old(ofo.store.held), x.pos, ofo.store.held, ofo.nxt, eof, delivered[|was|..], x, true)
      ensures whole && !eof ==> ofo.store.held == [] || ofo.store.held[0].pos > ofo.nxt
      ensures undelivered == old(undelivered) + if whole then 0 else 1
    {
      hide Store.Loose, Store.Valid, Ordered, AllSolid, Within, TotalBytes, Flat, FinAt, Has, Taken, Received, Valid;
      ghost var l0, d0 := ofo.store.held, delivered;
      whole := true;
      if fin {
        EndStream(lo);
        EmptyValid(lo);
        ReceivedFin(l0, x.pos, x);
        assert delivered[|was|..] == x.data;
      } else {
        whole := Drain(lo);
        assert delivered[|was|..] == x.data + delivered[|d0|..];
        if eof {
          ReceivedEnd(l0, x.pos, x, d0, delivered);
        } else {
          ReceivedDirect(l0, x.pos, x, ofo.store.held, ofo.nxt, delivered[|d0|..]);
        }
      }
    }

    /** Remember which part of a segment is a duplicate. */
    method NoteDup(sq: u32, len: nat, ghost p: int, ghost lo: int)
      requires Ready(lo) && ofo.Near(lo) && sq == Wrap(p) && -HALF <= p - ofo.nxt < HALF && len < 0x10000
      modifies this`notes, this`dupAt
      ensures Backed(notes, dupAt, ofo.store.held, ofo.nxt) && Ready(lo) && (old(Valid()) ==> Valid())
      ensures notes == old(notes).(duplicate := notes.duplicate, dsack := notes.dsack)
      ensures old(Valid()) && p + len - ofo.nxt < HALF ==> Marked(ofo.store.held, ofo.nxt, p, len)
    {
      hide Store.Loose, Store.Valid, Wrap, Within, NoneHad, Marks, FirstHit, Ready, Valid, Backed;
      ghost var base := lo;
      Noting(lo);
      if Valid() {
        InOrder();
        base := ofo.nxt;
      }
      var segs := ofo.store.Walk();
      var pending, block, at := NoteDuplicate(segs, ofo.recvAck, sq, len, permitted,
                                              ofo.store.held, ofo.nxt, base, ofo.nxt + ofo.size, p);
      notes, dupAt := notes.(duplicate := pending, dsack := block), at;
      BackedBy(notes, dupAt, ofo.store.held, ofo.nxt);
    }

    lemma BackedBy(notes: Notes, s: Span, held: seq<Piece>, nxt: int)
      requires notes.duplicate ==> CodeAt(notes.dsack, s) && s.left < s.right < s.left + HALF && AllHad(held, nxt, s)
      ensures Backed(notes, s, held, nxt)
    {
    }

    lemma Noting(lo: int)
      requires Ready(lo) && ofo.Near(lo)
      ensures ofo.store.Loose() && ofo.recvAck == Wrap(ofo.nxt) && Within(ofo.store.held, lo, ofo.nxt + ofo.size)
      ensures lo <= ofo.nxt <= ofo.nxt + ofo.size <= lo + HALF / 2 && this !in ofo.store.Repr()
    {
    }

    lemma InOrder()
      requires Valid()
      ensures Ordered(ofo.store.held) && Within(ofo.store.held, ofo.nxt, ofo.nxt + ofo.size)
    {
    }

    /** The notes tell what part of a segment was a duplicate. */
    ghost predicate Marked(held: seq<Piece>, nxt: int, p: int, len: nat)
      reads this
    {
      if permitted then Marks(notes.duplicate, notes.dsack, dupAt, held, nxt, p, len) else !notes.duplicate
    }

    /** Remember which held range a segment brought. */
    method NoteNew(sq: u32, len: nat, ghost l0: seq<Piece>, ghost n0: int, ghost p: int, ghost lo: int)
      requires Ready(lo) && ofo.Near(lo) && Backed(notes, dupAt, l0, n0) && sq == Wrap(p) && len < 0x10000
      modifies this`notes
      ensures Backed(notes, dupAt, l0, n0) && Ready(lo) && (old(Valid()) ==> Valid())
      ensures notes == old(notes).(recentValid := notes.recentValid, recent := notes.recent)
      ensures lo - 0x10000 <= p <= ofo.nxt + ofo.size ==> Recalled(p, len)
    {
      hide Store.Loose, Store.Valid, Within, Wrap, Hits, Shared, Ready, Valid;
      Noting(lo);
      var segs := ofo.store.Walk();
      var valid, block, _ := NoteRecent(segs, sq, len, ofo.store.held, lo, ofo.nxt + ofo.size, p);
      notes := notes.(recentValid := valid, recent := block);
    }

    /** The notes tell what a segment shares with the last held piece it overlaps. */
    ghost predicate Recalled(p: int, len: nat)
      reads this, ofo, ofo.store
    {
      var held := ofo.store.held;
      if notes.recentValid then
        exists k: nat :: k < |held| && Hits(held[k], p, len) && CodeAt(notes.recent, Shared(held[k], p, len)) &&
          forall j :: k < j < |held| ==> !Hits(held[j], p, len)
      else forall j :: 0 <= j < |held| ==> !Hits(held[j], p, len)
    }

    /** `tcp_ofo_insert`: note duplicates, buffer what is new, note what it brought. */
    method Insert(sq: u32, payload: seq<byte>, fin: bool, ghost s: Piece, ghost lo: int)
      returns (r: int, ghost upto: int)
      requires Ready(lo) && ofo.Near(lo) && !eof && ofo.Offered(sq, payload, fin, s)
      modifies this`notes, this`dupAt, ofo, ofo.owner, ofo.store.Repr()
      ensures
        && Ready(lo) && ofo.nxt == old(ofo.nxt) && ofo.size == old(ofo.size) && ofo.SameOthers()
        && fresh(ofo.store.Repr() - old(ofo.store.Repr()))
      ensures Backed(notes, dupAt, old(ofo.store.held), old(ofo.nxt))
      ensures old(Valid()) && s.End() - ofo.nxt < HALF ==> Marked(old(ofo.store.held), ofo.nxt, s.pos, |payload|)
      ensures lo - 0x10000 <= s.pos <= ofo.nxt + ofo.size ==> Recalled(s.pos, |payload|)
      ensures
        var x := Clip(s, old(ofo.nxt), old(ofo.nxt + ofo.Window()));
        && x.pos <= upto <= x.End() && (r == 0 ==> upto == x.End())
        && Blended(old(ofo.store.held), ofo.store.held, x, upto)
        && (old(Valid()) ==>
             && ofo.Inserted(old(ofo.store.held), x, upto, r)
             && (r != 0 || !Stranded(old(ofo.store.held), x) ==> Valid()))
      ensures (r == 0 || r == -1) && ofo.refused == old(ofo.refused) - r
    {
      hide Ready, Valid, Clip, Marks, Recalled, OfoQueue.Inserted, Backed, Stranded, Blended;
      ghost var l0, n0 := ofo.store.held, ofo.nxt;
      NoteDup(sq, |payload|, s.pos, lo);
      r, upto := Enter(sq, payload, fin, s, lo);
      NoteNew(sq, |payload|, l0, n0, s.pos, lo);
    }

    /** The part of it that buffers. */
    method Enter(sq: u32, payload: seq<byte>, fin: bool, ghost s: Piece, ghost lo: int)
      returns (r: int, ghost upto: int)
      requires Ready(lo) && ofo.Near(lo) && !eof && ofo.Offered(sq, payload, fin, s)
      modifies ofo, ofo.owner, ofo.store.Repr()
      ensures
        && Ready(lo) && ofo.nxt == old(ofo.nxt) && ofo.size == old(ofo.size) && ofo.SameOthers() && ofo.Near(lo)
        && fresh(ofo.store.Repr() - old(ofo.store.Repr()))
      ensures
        var x := Clip(s, old(ofo.nxt), old(ofo.nxt + ofo.Window()));
        && x.pos <= upto <= x.End() && (r == 0 ==> upto == x.End())
        && Blended(old(ofo.store.held), ofo.store.held, x, upto)
        && (old(Valid()) ==>
             && ofo.Inserted(old(ofo.store.held), x, upto, r)
             && (r != 0 || !Stranded(old(ofo.store.held), x) ==> Valid()))
      ensures (r == 0 || r == -1) && ofo.refused == old(ofo.refused) - r
    {
      hide Store.Loose, Store.Valid, Ordered, AllSolid, Within, TotalBytes, Flat, SameFins, FinMerged, Has, Merged;
      hide Clip, Stranded, Blended;
      r, upto := ofo.QueueInsert(sq, payload, fin, s, lo);
    }

    /** Buffer a segment that is not next in line, then drain. */
    method ReceiveOfo(sq: u32, payload: seq<byte>, fin: bool, drain: bool, ghost s: Piece, ghost lo: int)
      returns (ghost whole: bool)
      requires Ready(lo) && ofo.Near(lo) && !eof && ofo.Offered(sq, payload, fin, s)
      modifies this`rx, this`undelivered, this`delivered, this`eof, this`notes, this`dupAt, ofo, ofo.owner
      modifies ofo.store.Repr()
      ensures
        && Ready(lo) && ofo.size == old(ofo.size) && ofo.SameOthers() && old(delivered) <= delivered
        && fresh(ofo.store.Repr() - old(ofo.store.Repr()))
      ensures Backed(notes, dupAt, old(ofo.store.held), old(ofo.nxt)) && (eof ==> !notes.duplicate)
      ensures old(Valid()) && !eof && s.End() - old(ofo.nxt) < HALF ==>
                Marked(old(ofo.store.held), old(ofo.nxt), s.pos, |payload|)
      ensures
        var x := Clip(s, old(ofo.nxt), old(ofo.nxt + ofo.Window()));
        && Got(old(ofo.store.held), old(ofo.nxt), ofo.store.held, ofo.nxt, eof, delivered[|old(delivered)|..], x, whole)
        && (old(Valid()) ==>
              Received(old(ofo.store.held), old(ofo.nxt), ofo.store.held, ofo.nxt, eof, delivered[|old(delivered)|..],
                       x, whole))
        && (old(Valid()) && !Stranded(old(ofo.store.held), x) ==> Valid())
      ensures whole && drain && !eof ==> ofo.store.held == [] || ofo.store.held[0].pos > ofo.nxt
      ensures undelivered >= old(undelivered)
      ensures Refusals() >= old(Refusals()) && (whole <==> Refusals() == old(Refusals()))
    {
      hide Store.Loose, Store.Valid, Ordered, AllSolid, Within, TotalBytes, Flat, FinAt, Has, Taken, Received, Covered;
      hide Backed, Stranded, Blended, Clip, Valid, Got, OfoQueue.Inserted, Marks, Recalled;
      ghost var l0, n0, was, valid := ofo.store.held, ofo.nxt, delivered, Valid();
      ghost var x := Clip(s, ofo.nxt, ofo.nxt + ofo.Window());
      var r, upto := Insert(sq, payload, fin, s, lo);
      ghost var l1 := ofo.store.held;
      if Valid() { ValidReady(); }
      if valid && r == 0 { Noted(l0, x, upto); }
      var ok := true;
      if drain {
        PurgedBacked(notes, dupAt, l0, n0);
        ok := Drain(lo);
      } else {
        TakenRefl(l1, n0);
        assert delivered[|was|..] == [];
      }
      whole := r == 0 && ok;
      if eof {
        GotMergeEnd(l0, l1, x, upto, n0, was, delivered, whole);
        Parts(l0, n0, ofo.store.held, ofo.nxt, eof, delivered[|was|..], x, whole);
      } else {
        GotMerge(l0, l1, x, upto, n0, ofo.store.held, ofo.nxt, delivered[|was|..], r == 0);
        GotWeaken(l0, n0, ofo.store.held, ofo.nxt, eof, delivered[|was|..], x, r == 0, whole);
      }
    }

    lemma Parts(l0: seq<Piece>, n0: int, l: seq<Piece>, n: int, eof: bool, d: seq<byte>, x: Piece, whole: bool)
      requires Received(l0, n0, l, n, eof, d, x, whole)
      ensures Got(l0, n0, l, n, eof, d, x, whole)
    {
    }

    /** An insertion from good order notes the FIN, stray or not. */
    lemma Noted(was: seq<Piece>, x: Piece, upto: int)
      requires ofo.Inserted(was, x, upto, 0)
      ensures FinNoted(was, ofo.store.held, x)
    {
      hide Merged, OfoQueue.Sound, OfoQueue.Rough;
      if Stranded(was, x) {
        var k: nat :| Strays(was, k, x) && ofo.store.held == Placed(was, k, x);
        FinPlaced(was, k, x, x.End());
      }
    }

    /** `tcp_receive_stream_range` after clipping: deliver directly, or buffer. */
    method ReceiveClipped(sq: u32, data: seq<byte>, fin: bool, ghost t: Piece, ghost lo: int)
      returns (ghost whole: bool)
      requires Ready(lo) && ofo.Near(lo) && !eof && ofo.Offered(sq, data, fin, t)
      requires Backed(notes, dupAt, ofo.store.held, ofo.nxt)
      requires t.pos == ofo.nxt ==> Clip(t, ofo.nxt, ofo.nxt + ofo.Window()) == t
      modifies this`rx, this`undelivered, this`delivered, this`eof, this`notes, this`dupAt, ofo, ofo.owner
      modifies ofo.store.Repr()
      ensures
        && Ready(lo) && ofo.size == old(ofo.size) && ofo.SameOthers() && fresh(ofo.store.Repr() - old(ofo.store.Repr()))
      ensures old(delivered) <= delivered && Backed(notes, dupAt, old(ofo.store.held), old(ofo.nxt))
      ensures eof ==> !notes.duplicate
      ensures t.pos == old(ofo.nxt) && undelivered == old(undelivered) ==> ofo.refused == old(ofo.refused)
      ensures old(Valid()) && !eof && t.End() - old(ofo.nxt) < HALF ==>
                || (t.pos == old(ofo.nxt) && notes == old(notes) && dupAt == old(dupAt))
                || Marked(old(ofo.store.held), old(ofo.nxt), t.pos, |data|)
      ensures
        var x := Clip(t, old(ofo.nxt), old(ofo.nxt + ofo.Window()));
        && Got(old(ofo.store.held), old(ofo.nxt), ofo.store.held, ofo.nxt, eof, delivered[|old(delivered)|..], x, whole)
        && (old(Valid()) ==>
              Received(old(ofo.store.held), old(ofo.nxt), ofo.store.held, ofo.nxt, eof, delivered[|old(delivered)|..],
                       x, whole))
        && (old(Valid()) && !Stranded(old(ofo.store.held), x) ==> Valid())
      ensures whole && !eof ==> ofo.store.held == [] || ofo.store.held[0].pos > ofo.nxt
      ensures Refusals() >= old(Refusals()) && (whole <==> Refusals() == old(Refusals()))
    {
      hide Store.Loose, Store.Valid, Ordered, AllSolid, Within, TotalBytes, Flat, FinAt, Has, Taken, Received, Covered;
      hide Wrap, Clip, Backed, Stranded, Got, Valid, Marks;
      SerialOrder(t.pos, ofo.nxt);
      if sq == ofo.recvAck {
        ClipFits(t, ofo.nxt, ofo.nxt + ofo.Window());
        var ok;
        PurgedBacked(notes, dupAt, ofo.store.held, ofo.nxt);
        ok, whole := ReceiveDirect(data, fin, t, lo);
        if !ok {
          ghost var part := ReceiveOfo(sq, data, fin, false, t, lo);
          GotWeaken(old(ofo.store.held), old(ofo.nxt), ofo.store.held, ofo.nxt, eof,
                    delivered[|old(delivered)|..], t, part, false);
          whole := false;
        } else {
          Parts(old(ofo.store.held), old(ofo.nxt), ofo.store.held, ofo.nxt, eof,
                delivered[|old(delivered)|..], t, true);
          GotWeaken(old(ofo.store.held), old(ofo.nxt), ofo.store.held, ofo.nxt, eof,
                    delivered[|old(delivered)|..], t, true, whole);
        }
      } else {
        whole := ReceiveOfo(sq, data, fin, true, t, lo);
      }
    }

    /** The same, and nothing received before is given up. */
    method ReceiveKept(sq: u32, data: seq<byte>, fin: bool, ghost t: Piece, ghost lo: int) returns (ghost whole: bool)
      requires Ready(lo) && ofo.Near(lo) && !eof && ofo.Offered(sq, data, fin, t)
      requires Backed(notes, dupAt, ofo.store.held, ofo.nxt)
      requires t.pos == ofo.nxt ==> Clip(t, ofo.nxt, ofo.nxt + ofo.Window()) == t
      modifies this`rx, this`undelivered, this`delivered, this`eof, this`notes, this`dupAt, ofo, ofo.owner
      modifies ofo.store.Repr()
      ensures
        && Ready(lo) && ofo.size == old(ofo.size) && ofo.SameOthers() && fresh(ofo.store.Repr() - old(ofo.store.Repr()))
      ensures old(delivered) <= delivered && Backed(notes, dupAt, ofo.store.held, ofo.nxt)
      ensures Preserved(old(ofo.store.held), old(ofo.nxt), ofo.store.held, ofo.nxt, eof)
      ensures t.pos == old(ofo.nxt) && undelivered == old(undelivered) ==> ofo.refused == old(ofo.refused)
      ensures old(Valid()) && !eof && t.End() - old(ofo.nxt) < HALF ==>
                || (t.pos == old(ofo.nxt) && notes == old(notes) && dupAt == old(dupAt))
                || Marked(old(ofo.store.held), old(ofo.nxt), t.pos, |data|)
      ensures
        var x := Clip(t, old(ofo.nxt), old(ofo.nxt + ofo.Window()));
        && Got(old(ofo.store.held), old(ofo.nxt), ofo.store.held, ofo.nxt, eof, delivered[|old(delivered)|..], x, whole)
        && (old(Valid()) ==>
              Received(old(ofo.store.held), old(ofo.nxt), ofo.store.held, ofo.nxt, eof, delivered[|old(delivered)|..],
                       x, whole))
        && (old(Valid()) && !Stranded(old(ofo.store.held), x) ==> Valid())
      ensures whole && !eof ==> ofo.store.held == [] || ofo.store.held[0].pos > ofo.nxt
      ensures Refusals() >= old(Refusals()) && (whole <==> Refusals() == old(Refusals()))
    {
      hide Ready, Valid, AllSolid, Received, Got, Clip, Backed, Keeps, Stranded, NoneBeyond, OfoQueue.Near, Marks;
      ghost var l0, n0, x := ofo.store.held, ofo.nxt, Clip(t, ofo.nxt, ofo.nxt + ofo.Window());
      whole := ReceiveClipped(sq, data, fin, t, lo);
      if !eof || NoneBeyond(l0, ofo.nxt) {
        KeepsReceived(l0, n0, ofo.store.held, ofo.nxt, eof, delivered[|old(delivered)|..], x, whole);
      }
      if eof {
        Unnoted(notes, dupAt, ofo.store.held, ofo.nxt);
      } else {
        StillBacked(notes, dupAt, l0, n0, ofo.store.held, ofo.nxt);
      }
    }

    /** A bare FIN that would be linked out of order. */
    ghost predicate Strands(s: Piece)
      reads this, ofo, ofo.store
    {
      && !eof && Intersects(ofo.nxt, ofo.Window(), s)
      && Stranded(ofo.store.held, Windowed(s, ofo.nxt, ofo.nxt + ofo.Window()))
    }

    /** `tcp_receive_stream_range`: one payload/FIN range from the peer, whatever the order of the
        list. From good order it ends in good order, unless it is a stray FIN. */
    method Receive(sq: u32, payload: seq<byte>, hasFin: bool, ghost s: Piece, ghost lo: int) returns (ghost whole: bool)
      requires Ready(lo) && ofo.Near(lo) && ofo.Offered(sq, payload, hasFin, s)
      modifies this`rx, this`undelivered, this`delivered, this`eof, this`notes, this`dupAt, ofo, ofo.owner
      modifies ofo.store.Repr()
      ensures
        && Ready(lo) && ofo.size == old(ofo.size) && ofo.SameOthers() && fresh(ofo.store.Repr() - old(ofo.store.Repr()))
      ensures old(Valid()) && !old(Strands(s)) ==> Valid()
      ensures old(delivered) <= delivered && Backed(notes, dupAt, ofo.store.held, ofo.nxt)
      ensures Preserved(old(ofo.store.held), old(ofo.nxt), ofo.store.held, ofo.nxt, eof)
      ensures s.pos == old(ofo.nxt) && undelivered == old(undelivered) ==> ofo.refused == old(ofo.refused)
      ensures old(Valid()) && (old(eof) || !eof) && s.End() - old(ofo.nxt) < HALF ==>
                || Marked(old(ofo.store.held), old(ofo.nxt), s.pos, |payload|)
                || exists n: nat :: s.pos + n == old(ofo.nxt + ofo.Window()) &&
                     Marked(old(ofo.store.held), old(ofo.nxt), s.pos, n)
      ensures old(eof) || !Intersects(old(ofo.nxt), old(ofo.Window()), s) ==>
                && delivered == old(delivered) && ofo.nxt == old(ofo.nxt)
                && ofo.store.held == old(ofo.store.held) && eof == old(eof) && (old(Valid()) ==> Valid())
      ensures !old(eof) && Intersects(old(ofo.nxt), old(ofo.Window()), s) ==>
                var x := Windowed(s, old(ofo.nxt), old(ofo.nxt + ofo.Window()));
                && Got(old(ofo.store.held), old(ofo.nxt), ofo.store.held, ofo.nxt, eof,
                       delivered[|old(delivered)|..], x, whole)
                && (old(Valid()) ==>
                      Received(old(ofo.store.held), old(ofo.nxt), ofo.store.held, ofo.nxt, eof,
                               delivered[|old(delivered)|..], x, whole))
                && (whole && !eof ==> ofo.store.held == [] || ofo.store.held[0].pos > ofo.nxt)
      ensures whole <==> Refusals() == old(Refusals())
    {
      hide Store.Loose, Store.Valid, Ordered, AllSolid, Within, TotalBytes, Flat, FinAt, Has, Taken, Received, Covered;
      hide Wrap, Lt, Gt, Add32, Sub32, Acceptable, Intersects, Clip, Backed, Keeps, Stranded, NoneBeyond, Got, Valid;
      hide Marks;
      whole := true;
      ghost var n0, wnd := ofo.nxt, ofo.Window();
      NoteDup(sq, |payload|, s.pos, lo);
      AcceptableIff(n0, wnd, s);
      if eof || !Acceptable(ofo.recvAck, ofo.Window(), sq, |payload|, hasFin) {
        KeepsSame(ofo.store.held, ofo.nxt);
        return;
      }
      whole := ReceiveInside(sq, payload, hasFin, s, lo);
    }

    /** A segment that reaches into the window: cut it at the right edge, and take the rest. */
    method ReceiveInside(sq: u32, payload: seq<byte>, hasFin: bool, ghost s: Piece, ghost lo: int)
      returns (ghost whole: bool)
      requires Ready(lo) && ofo.Near(lo) && !eof && ofo.Offered(sq, payload, hasFin, s)
      requires Intersects(ofo.nxt, ofo.Window(), s) && Backed(notes, dupAt, ofo.store.held, ofo.nxt)
      modifies this`rx, this`undelivered, this`delivered, this`eof, this`notes, this`dupAt, ofo, ofo.owner
      modifies ofo.store.Repr()
      ensures
        && Ready(lo) && ofo.size == old(ofo.size) && ofo.SameOthers() && fresh(ofo.store.Repr() - old(ofo.store.Repr()))
      ensures old(Valid()) && !old(Strands(s)) ==> Valid()
      ensures old(delivered) <= delivered && Backed(notes, dupAt, ofo.store.held, ofo.nxt)
      ensures Preserved(old(ofo.store.held), old(ofo.nxt), ofo.store.held, ofo.nxt, eof)
      ensures s.pos == old(ofo.nxt) && undelivered == old(undelivered) ==> ofo.refused == old(ofo.refused)
      ensures old(Valid()) && !eof && s.End() - old(ofo.nxt) < HALF ==>
                || (notes == old(notes) && dupAt == old(dupAt))
                || Marked(old(ofo.store.held), old(ofo.nxt), s.pos, |payload|)
                || exists n: nat :: s.pos + n == old(ofo.nxt + ofo.Window()) &&
                     Marked(old(ofo.store.held), old(ofo.nxt), s.pos, n)
      ensures
        var x := Windowed(s, old(ofo.nxt), old(ofo.nxt + ofo.Window()));
        && Got(old(ofo.store.held), old(ofo.nxt), ofo.store.held, ofo.nxt, eof,
               delivered[|old(delivered)|..], x, whole)
        && (old(Valid()) ==>
              Received(old(ofo.store.held), old(ofo.nxt), ofo.store.held, ofo.nxt, eof,
                       delivered[|old(delivered)|..], x, whole))
        && (whole && !eof ==> ofo.store.held == [] || ofo.store.held[0].pos > ofo.nxt)
      ensures whole <==> Refusals() == old(Refusals())
    {
      hide Store.Loose, Store.Valid, Ordered, AllSolid, Within, TotalBytes, Flat, FinAt, Has, Taken, Received, Covered;
      hide Wrap, Lt, Gt, Add32, Sub32, Intersects, Clip, Backed, Keeps, Stranded, NoneBeyond, Got, Valid, Marks;
      ghost var n0, wnd := ofo.nxt, ofo.Window();
      var data, fin := ClipRight(ofo.recvAck, ofo.Window(), sq, payload, hasFin, n0, s);
      ghost var t := Piece(s.pos, data, fin);
      ClipAgain(s, t, n0, n0 + wnd);
      whole := ReceiveKept(sq, data, fin, t, lo);
    }

    /** The application reads at most `len` bytes of the blob at hand. */
    method Take(len: nat, ghost lo: int) returns (out: seq<byte>)
      requires Ready(lo) && len > 0 && (current != [] || rx != [])
      modifies this`rx, this`current, this`read, ofo`used
      ensures Ready(lo) && 0 < |out| <= len && read == old(read) + out && (old(Valid()) ==> Valid())
      ensures |out| == SackLoss.Min(len, |if old(current) != [] then old(current) else old(rx)[0]|)
      ensures ofo.used == old(ofo.used) - |out|
    {
      hide Store.Loose, Store.Valid, Ordered, AllSolid, Within, TotalBytes, Flat;
      if current == [] {
        FlatFirst(rx);
        current, rx := rx[0], rx[1..];
      }
      var n := if len < |current| then len else |current|;
      out, current := current[..n], current[n..];
      read := read + out;
      ofo.Charge(-n, lo);
    }

    /** Nothing held is next in line. */
    ghost predicate Drained()
      reads this, ofo, ofo.store
    {
      eof || ofo.store.held == [] || ofo.store.held[0].pos > ofo.nxt
    }

    /** A read made room: drain, and give up nothing. */
    method Refill(ghost lo: int)
      requires Ready(lo) && ofo.Near(lo)
      modifies this`rx, this`undelivered, this`delivered, this`eof, this`notes, ofo, ofo.owner, ofo.store.Repr()
      ensures Forgotten()
      ensures
        && Ready(lo) && ofo.size == old(ofo.size) && ofo.SameOthers() && ofo.store.Repr() <= old(ofo.store.Repr())
        && old(delivered) <= delivered && (old(Valid()) ==> Valid())
      ensures Preserved(old(ofo.store.held), old(ofo.nxt), ofo.store.held, ofo.nxt, eof)
      ensures old(eof) ==> delivered == old(delivered) && ofo.store.held == old(ofo.store.held) && eof
      ensures !old(eof) ==>
                Received(old(ofo.store.held), old(ofo.nxt), ofo.store.held, ofo.nxt, eof,
                         delivered[|old(delivered)|..], Piece(old(ofo.nxt), [], false), true)
      ensures Drained() || undelivered > old(undelivered)
    {
      hide Store.Loose, Ordered, AllSolid, Within, TotalBytes, Flat, Has, Taken, FinAt, Keeps, Received, NoneBeyond;
      hide Preserved, OfoQueue.Rough, Valid;
      ghost var l0, n0, was, d0 := ofo.store.held, ofo.nxt, eof, delivered;
      KeptSame(l0, n0);
      if Valid() { ValidReady(); }
      var _ := Drain(lo);
      if !was { AfterDrain(l0, n0, ofo.store.held, ofo.nxt, eof, d0, delivered); }
    }

    /** `tcp_recv`: bytes come out in stream order; the end is reported only
        after every byte in front of the peer's FIN was read. */
    method Recv(len: nat, failed: bool, closed: bool, ghost lo: int) returns (r: ReadResult)
      requires Ready(lo) && ofo.Near(lo)
      modifies this`rx, this`undelivered, this`current, this`delivered, this`read, this`eof, this`notes, ofo, ofo.owner
      modifies ofo.store.Repr()
      ensures Forgotten()
      ensures Ready(lo) && ofo.size == old(ofo.size) && ofo.SameOthers() && ofo.store.Repr() <= old(ofo.store.Repr())
      ensures old(Valid()) ==> Valid()
      ensures origin == old(origin) && old(delivered) <= delivered && old(read) <= read <= delivered
      ensures dupAt == old(dupAt) && Preserved(old(ofo.store.held), old(ofo.nxt), ofo.store.held, ofo.nxt, eof)
      ensures old(eof) ==> delivered == old(delivered) && ofo.store.held == old(ofo.store.held) && eof
      ensures !old(eof) ==>
                Received(old(ofo.store.held), old(ofo.nxt), ofo.store.held, ofo.nxt, eof,
                         delivered[|old(delivered)|..], Piece(old(ofo.nxt), [], false), true)
      ensures r.Bytes? ==> read == old(read) + r.data && |r.data| <= len && (len > 0 ==> r.data != [])
      ensures !r.Bytes? ==> read == old(read) && delivered == old(delivered)
      ensures r == Again ==> read == delivered && !eof
      ensures r == EndOfFile && !closed ==> read == delivered && eof
      ensures len == 0 ==> r == Bytes([])
      ensures len > 0 && failed ==> r == Failed
      ensures len > 0 && !failed && old(read == delivered) ==> r == if old(eof) || closed then EndOfFile else Again
      ensures len > 0 && !failed && old(read < delivered) ==>
                && r.Bytes? && (Drained() || undelivered > old(undelivered))
                && |r.data| == SackLoss.Min(len, |if old(current) != [] then old(current) else old(rx)[0]|)
    {
      hide Store.Loose, Store.Valid, Ordered, AllSolid, Within, TotalBytes, Flat, Has, Taken, FinAt, Keeps, Received;
      hide Valid;
      KeepsSame(ofo.store.held, ofo.nxt);
      ReceivedNothing(ofo.store.held, ofo.nxt);
      assert delivered[|delivered|..] == [];
      if len == 0 {
        return Bytes([]);
      }
      if failed {
        return Failed;
      }
      if current == [] && rx == [] {
        FlatEmpty();
        return if eof || closed then EndOfFile else Again;
      }
      var out := Take(len, lo);
      Refill(lo);
      return Bytes(out);
    }

    /** `tcp_drain_recv`: a stream that goes away gives back everything it holds. */
    method Discard(ghost lo: int)
      requires Ready(lo)
      modifies this`rx, this`current, this`notes, ofo, ofo.owner, ofo.store.Repr()
      ensures rx == [] && current == [] && notes == Purged(old(notes)) && ofo.store.held == []
      ensures !notes.recentValid && !notes.duplicate && notes.history == []
      ensures ofo.bytes == ofo.count == ofo.used == 0 && ofo.SameOthers() && ofo.store.Repr() <= old(ofo.store.Repr())
    {
      hide Store.Loose, AllSolid, Within, TotalBytes, Flat;
      while rx != []
        modifies this`rx
        decreases |rx|
      {
        rx := rx[1..];
      }
      current := [];
      ofo.Purge(lo);
      notes := Purged(notes);
      ofo.Emptied(lo);
      ofo.used := 0;
    }

    /** The report made from notes `was`: the held intervals `norm` in order of urgency, if there is
        something to report. */
    ghost predicate Answers(out: seq<Block>, norm: seq<Block>, was: Notes, capacity: nat)
      reads this, ofo, ofo.store
    {
      if permitted && (was.duplicate || ofo.store.held != []) then
        && Summary(norm, ofo.store.held, ofo.nxt, ofo.nxt + ofo.size)
        && Says(out, notes, norm, ofo.recvAck, was, capacity)
      else out == [] && notes == was
    }

    /** `tcp_options_emit_sack`: the blocks of the next ACK. */
    method MakeReport(capacity: nat) returns (out: seq<Block>, ghost spans: seq<Span>, ghost norm: seq<Block>)
      requires Valid() && Backed(notes, dupAt, ofo.store.held, ofo.nxt)
      modifies this`notes
      ensures Valid() && Backed(notes, dupAt, ofo.store.held, ofo.nxt) && |out| <= capacity
      ensures Honest(out, spans, ofo.store.held, ofo.nxt, old(notes).duplicate, dupAt)
      ensures permitted && !old(notes).duplicate && |out| < capacity ==>
                forall q :: Covered(ofo.store.held, q) ==> In(spans, q)
      ensures Answers(out, norm, old(notes), capacity)
    {
      hide Store.Valid, Store.Loose, TotalBytes, Flat, FinAt, Has, Wrap, Backed, Honest, Covered, In, AllSolid;
      hide Summary, Says;
      ofo.store.ValidLoose();
      out, spans, norm := [], [], [];
      HonestNone(ofo.store.held, ofo.nxt, notes.duplicate, dupAt);
      if !permitted {
        return;
      }
      var segs := ofo.store.Walk();
      if !notes.duplicate && segs == [] {
        CoveredNone();
        return;
      }
      out, notes, spans, norm := Report(segs, ofo.recvAck, notes, capacity,
                                        ofo.store.held, ofo.nxt, ofo.nxt + ofo.size, dupAt);
    }
  }
}
