/** What a receiver reports back: SACK blocks cut from what it holds, and one
    D-SACK block (pro-stack/tcp.c, pro-stack/tcp_options.c). */
module SackReport {
  import opened Serial
  import opened Segments
  import opened Octets
  import opened SackRanges
  import opened SackLoss
  import opened Reassembly
  import opened OfoStore
  import TcpOfo

  const MAX_REPORTED := 4

  /** Recently reported blocks, newest first. */
  type History = h: seq<Block> | |h| <= MAX_REPORTED

  /** The out-of-order list as the code walks it. */
  ghost predicate Listed(segs: seq<Segment>, held: seq<Piece>) {
    |segs| == |held| && forall i :: 0 <= i < |segs| ==> segs[i] == Coded(held[i])
  }

  /** Octet `q` was received: delivered, or held out of order. */
  ghost predicate Had(held: seq<Piece>, nxt: int, q: int) {
    q < nxt || Covered(held, q)
  }

  ghost predicate AllHad(held: seq<Piece>, nxt: int, s: Span) {
    forall q :: s.left <= q < s.right ==> Had(held, nxt, q)
  }

  /** No octet of [l, r) was received. */
  ghost predicate NoneHad(held: seq<Piece>, nxt: int, l: int, r: int) {
    forall q :: l <= q < r ==> !Had(held, nxt, q)
  }

  lemma HeldNear(segs: seq<Segment>, held: seq<Piece>, i: nat, nxt: int, hi: int)
    requires Listed(segs, held) && Within(held, nxt, hi) && i < |segs|
    ensures
      && nxt <= held[i].pos <= held[i].End() <= hi && segs[i].start == Wrap(held[i].pos)
      && |segs[i].data| == |held[i].data|
      && Add32(segs[i].start, |segs[i].data|) == Wrap(held[i].End())
  {
    AddWrap(held[i].pos, |held[i].data|);
  }

  /** The segment brought octets of piece `x`. */
  ghost predicate Hits(x: Piece, p: int, len: nat) {
    0 < len && x.data != [] && p < x.End() && x.pos < p + len
  }

  /** The part of the segment inside piece `x`. */
  ghost function Shared(x: Piece, p: int, len: nat): Span {
    Span(if x.pos > p then x.pos else p, if x.End() < p + len then x.End() else p + len)
  }

  /** Piece `k` is the first of which the segment brought octets. */
  ghost predicate FirstHit(held: seq<Piece>, k: nat, p: int, len: nat) {
    k < |held| && Hits(held[k], p, len) && forall j :: 0 <= j < k ==> !Hits(held[j], p, len)
  }

  /** What is to be noted of a segment of `len` octets at `p`: its first part that was already
      received, if any was. */
  ghost predicate Marks(duplicate: bool, dsack: Block, s: Span, held: seq<Piece>, nxt: int, p: int, len: nat) {
    && (duplicate <==> !NoneHad(held, nxt, p, p + len))
    && (duplicate ==>
          && CodeAt(dsack, s)
          && if p < nxt then s == Span(p, Min(p + len, nxt))
             else exists k: nat :: FirstHit(held, k, p, len) && s == Shared(held[k], p, len))
  }

  /** `tcp_sack_note_duplicate`: the first part of a segment that was already received. */
  method NoteDuplicate(segs: seq<Segment>, recvAck: u32, sq: u32, len: nat, permitted: bool,
                       ghost held: seq<Piece>, ghost nxt: int, ghost lo: int, ghost hi: int, ghost p: int)
    returns (pending: bool, block: Block, ghost s: Span)
    requires Listed(segs, held) && Within(held, lo, hi) && lo <= nxt <= hi <= lo + HALF / 2
    requires recvAck == Wrap(nxt) && sq == Wrap(p) && -HALF <= p - nxt < HALF && len < 0x10000
    ensures pending ==> permitted && CodeAt(block, s) && p <= s.left < s.right <= p + len && AllHad(held, nxt, s)
    ensures pending && p < nxt ==> s == Span(p, Min(p + len, nxt))
    ensures pending && nxt <= p ==> exists k: nat :: FirstHit(held, k, p, len) && s == Shared(held[k], p, len)
    ensures permitted && p < nxt && len > 0 ==> pending
    ensures Ordered(held) && pending ==> NoneHad(held, nxt, p, s.left)
    ensures Ordered(held) && lo == nxt && !pending && permitted && p + len - nxt < HALF ==>
              NoneHad(held, nxt, p, p + len)
    ensures Ordered(held) && lo == nxt && permitted && p + len - nxt < HALF ==>
              Marks(pending, block, s, held, nxt, p, len)
  {
    hide Wrap, Lt, Gt, Add32, Ordered, Within, Listed;
    var end := Add32(sq, len);
    AddWrap(p, len);
    pending, block, s := false, Block(0, 0), Span(p, p);
    if !permitted || len == 0 {
      return;
    }
    SerialOrder(p, nxt);
    if Lt(sq, recvAck) {
      SerialOrder(p + len, nxt);
      var right := if Lt(end, recvAck) then end else recvAck;
      ghost var r := if p + len < nxt then p + len else nxt;
      SerialOrder(p, r);
      if Lt(sq, right) {
        assert Had(held, nxt, p);
        return true, Block(sq, right), Span(p, r);
      }
    }
    WalkStart(held, p);
    SameCount(segs, held);
    for i := 0 to |segs|
      invariant !pending && Ended(held, i, p) && nxt <= p
    {
      HeldNear(segs, held, i, lo, hi);
      ghost var x := held[i];
      var segEnd := Add32(segs[i].start, |segs[i].data|);
      if p + len - x.pos < HALF {
        SerialOrder(x.pos, p + len);
      }
      if !Lt(segs[i].start, end) {
        if Ordered(held) { WalkPast(held, i, p, p + len, nxt); }
        return;
      }
      ReachesBack(x.pos, p + len);
      SerialOrder(p, x.End());
      if !Lt(sq, segEnd) {
        EndedNext(held, i, p);
        continue;
      }
      SerialOrder(p, x.pos);
      SerialOrder(p + len, x.End());
      var left := if Gt(sq, segs[i].start) then sq else segs[i].start;
      var right := if Lt(end, segEnd) then end else segEnd;
      ghost var l, r := if p > x.pos then p else x.pos, if p + len < x.End() then p + len else x.End();
      SerialOrder(l, r);
      if Lt(left, right) {
        Overlapped(held, i, p, l, r, nxt);
        assert FirstHit(held, i, p, len) && Had(held, nxt, l);
        return true, Block(left, right), Span(l, r);
      }
      assert x.data == [];
      EndedNext(held, i, p);
    }
    WalkDone(held, p, nxt);
  }

  /** The pieces before `i` end at or before `p`. */
  ghost predicate Ended(held: seq<Piece>, i: nat, p: int) {
    i <= |held| && forall k :: 0 <= k < i ==> held[k].End() <= p || held[k].data == []
  }

  lemma WalkStart(held: seq<Piece>, p: int)
    ensures Ended(held, 0, p)
  {
  }

  lemma SameCount(segs: seq<Segment>, held: seq<Piece>)
    requires Listed(segs, held)
    ensures |segs| == |held|
  {
  }

  lemma EndedNext(held: seq<Piece>, i: nat, p: int)
    requires Ended(held, i, p) && i < |held| && (held[i].End() <= p || held[i].data == [])
    ensures Ended(held, i + 1, p)
  {
  }

  /** Two numbers whose difference wraps below half the space stand in order. */
  lemma ReachesBack(x: int, e: int)
    requires Lt(Wrap(x), Wrap(e)) && -HALF < e - x < 2 * HALF
    ensures 0 < e - x <= HALF
  {
    SubWrap(x, e);
    if e - x > HALF {
      ModShift(x - e, 1);
      SmallWrap(x - e + WRAP);
    } else {
      SmallWrap(x - e);
    }
  }

  lemma WalkPast(held: seq<Piece>, i: nat, p: int, e: int, nxt: int)
    requires Ordered(held) && Ended(held, i, p) && i < |held| && nxt <= p
    ensures e - nxt < HALF && e <= held[i].pos ==> NoneHad(held, nxt, p, e)
  {
    if e <= held[i].pos {
      forall q | p <= q < e
        ensures !Covered(held, q)
      {
        forall k | i < k < |held|
          ensures held[k].pos >= e
        {
        }
      }
    }
  }

  lemma WalkDone(held: seq<Piece>, p: int, nxt: int)
    requires Ended(held, |held|, p) && nxt <= p
    ensures forall r :: NoneHad(held, nxt, p, r)
  {
  }

  lemma Overlapped(held: seq<Piece>, i: nat, p: int, l: int, r: int, nxt: int)
    requires Ended(held, i, p) && i < |held| && nxt <= p
    requires p <= l && held[i].pos <= l < r <= held[i].End() && (l == p || l == held[i].pos)
    ensures AllHad(held, nxt, Span(l, r)) && (Ordered(held) ==> NoneHad(held, nxt, p, l))
  {
    if Ordered(held) {
      forall q | p <= q < l
        ensures !Covered(held, q)
      {
        forall k | i < k < |held|
          ensures held[k].pos >= l
        {
        }
      }
    }
  }

  /** The comparisons `tcp_sack_note_recent` makes with one held segment. */
  lemma CompareRecent(x: Piece, p: int, len: nat, nxt: int, hi: int)
    requires nxt <= x.pos && x.End() <= hi && hi - nxt < HALF - 0x20000 && nxt - 0x10000 <= p <= hi && 0 < len < 0x10000
    ensures
      var sq, end, segEnd := Wrap(p), Add32(Wrap(p), len), Add32(Wrap(x.pos), |x.data|);
      && end == Wrap(p + len) && segEnd == Wrap(x.End())
      && (Gt(segEnd, sq) <==> x.End() > p) && (Gt(end, Wrap(x.pos)) <==> p + len > x.pos)
      && (Gt(Wrap(x.pos), sq) <==> x.pos > p) && (Lt(segEnd, end) <==> x.End() < p + len)
  {
    AddWrap(p, len);
    AddWrap(x.pos, |x.data|);
    SerialOrder(x.End(), p);
    SerialOrder(p + len, x.pos);
    SerialOrder(x.pos, p);
    SerialOrder(x.End(), p + len);
  }

  /** `tcp_sack_note_recent`: what the segment shares with the last held piece it overlaps. */
  method NoteRecent(segs: seq<Segment>, sq: u32, len: nat, ghost held: seq<Piece>, ghost nxt: int, ghost hi: int,
                    ghost p: int)
    returns (valid: bool, block: Block, ghost k: nat)
    requires Listed(segs, held) && Within(held, nxt, hi) && hi - nxt < HALF - 0x20000 && sq == Wrap(p) && len < 0x10000
    ensures nxt - 0x10000 <= p <= hi && valid ==>
              && k < |held| && Hits(held[k], p, len) && (forall j :: k < j < |held| ==> !Hits(held[j], p, len))
              && CodeAt(block, Shared(held[k], p, len))
    ensures nxt - 0x10000 <= p <= hi && !valid ==> forall j :: 0 <= j < |held| ==> !Hits(held[j], p, len)
  {
    hide Wrap, Gt, Lt, Add32;
    valid, block, k := false, Block(0, 0), 0;
    if len == 0 {
      return;
    }
    ghost var near := nxt - 0x10000 <= p <= hi;
    var end := Add32(sq, len);
    for i := 0 to |segs|
      invariant near && valid ==>
                  && k < i && Hits(held[k], p, len) && (forall j :: k < j < i ==> !Hits(held[j], p, len))
                  && CodeAt(block, Shared(held[k], p, len))
      invariant near && !valid ==> forall j :: 0 <= j < i ==> !Hits(held[j], p, len)
    {
      var seg := segs[i];
      var segEnd := Add32(seg.start, |seg.data|);
      if near { CompareRecent(held[i], p, len, nxt, hi); }
      if |seg.data| == 0 || !Gt(segEnd, sq) || !Gt(end, seg.start) {
        continue;
      }
      block := Block(if Gt(seg.start, sq) then seg.start else sq, if Lt(segEnd, end) then segEnd else end);
      valid, k := true, i;
    }
  }

  function SeqMax(a: u32, b: u32): u32 { if Gt(b, a) then b else a }

  /** The held octets among the first `i` pieces as intervals. */
  ghost predicate Normal(norm: seq<Block>, at: seq<Span>, held: seq<Piece>, i: nat, nxt: int, hi: int) {
    && i <= |held| && Sorted(norm, at, nxt, hi) && |norm| <= i
    && (forall q :: In(at, q) <==> Covered(held[..i], q))
    && (forall k :: 0 <= k < |at| && i < |held| ==> at[k].right <= held[i].pos)
  }

  /** The intervals after one more piece: it extends the last one, or starts a new one. */
  ghost function Extended(at: seq<Span>, x: Piece): seq<Span> {
    var n := |at| - 1;
    if x.data == [] then at
    else if at != [] && x.pos <= at[n].right then at[n := Span(at[n].left, x.End())]
    else at + [Span(x.pos, x.End())]
  }

  lemma ExtendedIn(at: seq<Span>, x: Piece, q: int)
    requires at != [] ==> at[|at| - 1].left <= at[|at| - 1].right <= x.pos
    ensures In(Extended(at, x), q) <==> In(at, q) || x.pos <= q < x.End()
  {
    hide In;
    var n, to := |at| - 1, Extended(at, x);
    if x.data != [] {
      InLast(to, q);
      if at != [] && x.pos <= at[n].right {
        InLast(at, q);
        assert to[..n] == at[..n];
      } else {
        assert to[..|at|] == at;
      }
    }
  }

  lemma NormalNext(norm: seq<Block>, at: seq<Span>, held: seq<Piece>, i: nat, nxt: int, hi: int)
    requires Normal(norm, at, held, i, nxt, hi) && i < |held| && Ordered(held) && Within(held, nxt, hi)
    ensures
      var x, n := held[i], |at| - 1;
      if x.data == [] then Normal(norm, at, held, i + 1, nxt, hi)
      else if at != [] && x.pos <= at[n].right then
        Normal(norm[n := Block(norm[n].left, Wrap(x.End()))], at[n := Span(at[n].left, x.End())], held, i + 1, nxt, hi)
      else
        Normal(norm + [Block(Wrap(x.pos), Wrap(x.End()))], at + [Span(x.pos, x.End())], held, i + 1, nxt, hi)
  {
    hide Covered, In, Wrap;
    var x, to := held[i], Extended(at, held[i]);
    forall q
      ensures In(to, q) <==> Covered(held[..i + 1], q)
    {
      CoveredNext(held, i, q);
      ExtendedIn(at, x, q);
    }
    forall k | 0 <= k < |to| && i + 1 < |held|
      ensures to[k].right <= held[i + 1].pos
    {
      assert x.End() <= held[i + 1].pos;
    }
  }

  lemma CoveredNext(held: seq<Piece>, i: nat, q: int)
    requires i < |held|
    ensures Covered(held[..i + 1], q) <==> Covered(held[..i], q) || held[i].pos <= q < held[i].End()
  {
    if Covered(held[..i + 1], q) {
      var k :| 0 <= k < i + 1 && held[..i + 1][k].pos <= q < held[..i + 1][k].End();
      if k < i { assert held[..i][k] == held[k]; }
    }
    if Covered(held[..i], q) {
      var k :| 0 <= k < i && held[..i][k].pos <= q < held[..i][k].End();
      assert held[..i + 1][k] == held[k];
    }
    assert held[..i + 1][i] == held[i];
  }

  /** The first loop of `tcp_options_collect_sacks`: adjacent segments merge, and the
      intervals cover exactly what is held. */
  method Normalize(segs: seq<Segment>, recvAck: u32, ghost held: seq<Piece>, ghost nxt: int, ghost hi: int)
    returns (norm: seq<Block>, ghost at: seq<Span>)
    requires
      && Listed(segs, held) && Ordered(held) && Within(held, nxt, hi) && hi - nxt < HALF && recvAck == Wrap(nxt)
      && |segs| <= TcpOfo.MAX_SEGS
    ensures Sorted(norm, at, nxt, hi) && forall q :: In(at, q) <==> Covered(held, q)
  {
    hide Wrap, Lt, Gt, Add32, Ordered, Within, Listed, Sorted, In, Covered, Normal;
    norm, at := [], [];
    SameCount(segs, held);
    NormalNone(held, nxt, hi);
    for i := 0 to |segs|
      invariant Normal(norm, at, held, i, nxt, hi) && |norm| == |at| <= i
    {
      HeldNear(segs, held, i, nxt, hi);
      NormalNext(norm, at, held, i, nxt, hi);
      var right := Add32(segs[i].start, |segs[i].data|);
      SerialOrder(held[i].End(), nxt);
      SerialOrder(nxt, held[i].pos);
      if |segs[i].data| == 0 || !Gt(right, recvAck) {
        continue;
      }
      var left := SeqMax(segs[i].start, recvAck);
      var n := |norm| - 1;
      if |norm| != 0 {
        LastNear(norm, at, held, i, nxt, hi);
        SerialOrder(held[i].pos, at[n].right);
        SerialOrder(held[i].End(), at[n].right);
        if !Gt(left, norm[n].right) {
          if Gt(right, norm[n].right) {
            norm := norm[n := Block(norm[n].left, right)];
          }
          at := at[n := Span(at[n].left, held[i].End())];
          continue;
        }
      }
      if |norm| == TcpOfo.MAX_SEGS {
        assert false;
      }
      norm, at := norm + [Block(left, right)], at + [Span(held[i].pos, held[i].End())];
    }
    NormalAll(norm, at, held, nxt, hi);
  }

  lemma NormalNone(held: seq<Piece>, nxt: int, hi: int)
    requires hi - nxt < HALF
    ensures Normal([], [], held, 0, nxt, hi)
  {
  }

  lemma NormalAll(norm: seq<Block>, at: seq<Span>, held: seq<Piece>, nxt: int, hi: int)
    requires Normal(norm, at, held, |held|, nxt, hi)
    ensures Sorted(norm, at, nxt, hi) && forall q :: In(at, q) <==> Covered(held, q)
  {
    assert held[..|held|] == held;
  }

  lemma LastNear(norm: seq<Block>, at: seq<Span>, held: seq<Piece>, i: nat, nxt: int, hi: int)
    requires Normal(norm, at, held, i, nxt, hi) && i < |held| && at != []
    ensures
      var n := |at| - 1;
      |norm| == |at| && nxt <= at[n].left < at[n].right <= hi && at[n].right <= held[i].pos &&
        norm[n] == Block(Wrap(at[n].left), Wrap(at[n].right))
  {
    assert CodeAt(norm[|at| - 1], at[|at| - 1]);
  }

  /** `tcp_options_block_contains` */
  predicate Encloses(outer: Block, inner: Block) {
    !Gt(outer.left, inner.left) && !Gt(inner.right, outer.right)
  }

  /** In terms of octets: the outer interval begins no later and ends no earlier. */
  lemma EnclosesMeans(outer: Block, inner: Block, o: Span, i: Span)
    requires CodeAt(outer, o) && CodeAt(inner, i) && -HALF < o.left - i.left < HALF && -HALF < o.right - i.right < HALF
    ensures Encloses(outer, inner) <==> o.left <= i.left && i.right <= o.right
  {
    SerialOrder(o.left, i.left);
    SerialOrder(i.right, o.right);
  }

  ghost predicate Enclosed(out: seq<Block>, b: Block) {
    exists i :: 0 <= i < |out| && Encloses(out[i], b)
  }

  /** `tcp_options_add_distinct` */
  method AddDistinct(out: seq<Block>, capacity: nat, block: Block) returns (more: seq<Block>)
    requires |out| <= capacity
    ensures |more| <= capacity && out <= more && (more == out || more == out + [block])
    ensures Enclosed(out, block) ==> more == out
    ensures !Enclosed(out, block) ==> more == if |out| < capacity then out + [block] else out
  {
    for i := 0 to |out|
      invariant forall k :: 0 <= k < i ==> !Encloses(out[k], block)
    {
      if Encloses(out[i], block) {
        return out;
      }
    }
    return if |out| >= capacity then out else out + [block];
  }

  /** Blocks taken in turn while there is room, but for those inside one already taken. */
  ghost function Picked(offers: seq<Block>, capacity: nat): seq<Block> {
    if offers == [] then []
    else
      var out, b := Picked(offers[..|offers| - 1], capacity), offers[|offers| - 1];
      if Enclosed(out, b) || |out| >= capacity then out else out + [b]
  }

  lemma PickedMore(offers: seq<Block>, b: Block, capacity: nat)
    ensures
      var out := Picked(offers, capacity);
      Picked(offers + [b], capacity) == if Enclosed(out, b) || |out| >= capacity then out else out + [b]
  {
    assert (offers + [b])[..|offers|] == offers;
  }

  /** Nothing more fits. */
  lemma {:induction false} PickedFull(offers: seq<Block>, more: seq<Block>, capacity: nat)
    requires |Picked(offers, capacity)| >= capacity
    ensures Picked(offers + more, capacity) == Picked(offers, capacity)
    decreases |more|
  {
    hide Enclosed;
    if more == [] {
      assert offers + more == offers;
    } else {
      var n := |more| - 1;
      PickedFull(offers, more[..n], capacity);
      assert offers + more == offers + more[..n] + [more[n]];
      PickedMore(offers + more[..n], more[n], capacity);
    }
  }

  /** The first of the intervals that contains a block, if any does. */
  ghost function Around(norm: seq<Block>, b: Block): seq<Block> {
    if norm == [] then [] else if Encloses(norm[0], b) then [norm[0]] else Around(norm[1..], b)
  }

  lemma {:induction false} AroundAt(norm: seq<Block>, b: Block, i: nat)
    requires i <= |norm| && (forall k :: 0 <= k < i ==> !Encloses(norm[k], b)) && (i < |norm| ==> Encloses(norm[i], b))
    ensures Around(norm, b) == if i < |norm| then [norm[i]] else []
  {
    hide Encloses;
    if norm != [] && i > 0 { AroundAt(norm[1..], b, i - 1); }
  }

  /** The first of the intervals that overlaps a block, if any does. */
  ghost function Touched(norm: seq<Block>, b: Block): seq<Block> {
    if norm == [] then []
    else if Gt(norm[0].right, b.left) && Gt(b.right, norm[0].left) then [norm[0]]
    else Touched(norm[1..], b)
  }

  lemma {:induction false} TouchedAt(norm: seq<Block>, b: Block, i: nat)
    requires i <= |norm| && (i < |norm| ==> Gt(norm[i].right, b.left) && Gt(b.right, norm[i].left))
    requires forall k :: 0 <= k < i ==> !(Gt(norm[k].right, b.left) && Gt(b.right, norm[k].left))
    ensures Touched(norm, b) == if i < |norm| then [norm[i]] else []
  {
    hide Gt;
    if norm != [] && i > 0 { TouchedAt(norm[1..], b, i - 1); }
  }

  /** The intervals around the blocks of a history, newest first. */
  ghost function AllAround(norm: seq<Block>, past: seq<Block>): seq<Block> {
    if past == [] then [] else AllAround(norm, past[..|past| - 1]) + Around(norm, past[|past| - 1])
  }

  /** What a report is to say first: a D-SACK, with the interval around it if the ACK does not
      cover it; the most recent interval; those around recently reported blocks. */
  ghost function Urgent(norm: seq<Block>, recvAck: u32, recentValid: bool, recent: Block, duplicate: bool,
                        dsack: Block, past: seq<Block>): seq<Block> {
    (if duplicate then [dsack] + (if Gt(dsack.right, recvAck) then Around(norm, dsack) else []) else [])
    + (if recentValid then Touched(norm, recent) else []) + AllAround(norm, past)
  }

  /** And then the rest. */
  ghost function Offers(norm: seq<Block>, recvAck: u32, recentValid: bool, recent: Block, duplicate: bool,
                        dsack: Block, past: seq<Block>): seq<Block> {
    Urgent(norm, recvAck, recentValid, recent, duplicate, dsack, past) + norm
  }

  /** The history once the most recent interval is reported. */
  ghost function Reported(norm: seq<Block>, recentValid: bool, recent: Block, history: History): seq<Block> {
    if recentValid && Touched(norm, recent) != [] then Pushed(history, Touched(norm, recent)[0]) else history
  }

  /** One of two blocks contains the other. */
  predicate Related(a: Block, b: Block) { Encloses(a, b) || Encloses(b, a) }

  /** Where the first block related to this one is. */
  ghost function FirstRelated(history: seq<Block>, block: Block): (i: nat)
    ensures i <= |history| && (i < |history| ==> Related(history[i], block))
    ensures forall k :: 0 <= k < i ==> !Related(history[k], block)
  {
    if history == [] || Related(history[0], block) then 0 else 1 + FirstRelated(history[1..], block)
  }

  /** The history after a block is reported. */
  ghost function Pushed(history: History, block: Block): seq<Block> {
    var i := FirstRelated(history, block);
    if i < |history| then [block] + history[..i] + history[i + 1..]
    else [block] + history[..if |history| < MAX_REPORTED then |history| else MAX_REPORTED - 1]
  }

  /** What stays after position `i` gave way to a block at the front. */
  lemma Replaced(history: seq<Block>, i: nat, block: Block)
    requires i < |history|
    ensures
      var pushed := [block] + history[..i] + history[i + 1..];
      && (forall b :: b in pushed[1..] ==> b in history)
      && (forall b :: b in history && b != history[i] ==> b in pushed)
  {
    var pushed := [block] + history[..i] + history[i + 1..];
    assert pushed[1..] == history[..i] + history[i + 1..];
    assert history == history[..i] + [history[i]] + history[i + 1..];
  }

  /** `tcp_options_history_push`: the block moves to the front in place of the first one related
      to it; the others keep their order, and only a full history loses its oldest. */
  method HistoryPush(history: History, block: Block) returns (pushed: History)
    ensures pushed == Pushed(history, block)
    ensures forall i :: 0 <= i < |history| && Related(history[i], block)
                        && (forall k :: 0 <= k < i ==> !Related(history[k], block)) ==>
              pushed == [block] + history[..i] + history[i + 1..]
    ensures (forall k :: 0 <= k < |history| ==> !Related(history[k], block)) ==>
              pushed == [block] + history[..if |history| < MAX_REPORTED then |history| else MAX_REPORTED - 1]
    ensures pushed != [] && pushed[0] == block
    ensures forall b :: b in pushed[1..] ==> b in history
    ensures forall b :: b in history && !Related(b, block) && |history| < MAX_REPORTED ==> b in pushed
  {
    hide Related;
    var i := 0;
    while i < |history| && !Related(history[i], block)
      invariant i <= |history| && forall k :: 0 <= k < i ==> !Related(history[k], block)
    {
      i := i + 1;
    }
    if i < |history| {
      pushed := [block] + history[..i] + history[i + 1..];
      Replaced(history, i, block);
    } else {
      var keep := if |history| < MAX_REPORTED then |history| else MAX_REPORTED - 1;
      pushed := [block] + history[..keep];
      assert pushed[1..] == history[..keep] && (keep == |history| ==> history[..keep] == history);
    }
  }

  /** Every reported block is one of the intervals, or the D-SACK in front. */
  ghost predicate Drawn(out: seq<Block>, norm: seq<Block>, duplicate: bool, dsack: Block) {
    forall i :: 0 <= i < |out| ==> out[i] in norm || (i == 0 && duplicate && out[0] == dsack)
  }

  /** The first interval that overlaps the most recent segment. */
  method FindRecent(norm: seq<Block>, recent: Block) returns (i: nat)
    ensures i <= |norm| && (i < |norm| ==> Gt(norm[i].right, recent.left) && Gt(recent.right, norm[i].left))
    ensures forall k :: 0 <= k < i ==> !(Gt(norm[k].right, recent.left) && Gt(recent.right, norm[k].left))
  {
    i := 0;
    while i < |norm| && !(Gt(norm[i].right, recent.left) && Gt(recent.right, norm[i].left))
      invariant
        && i <= |norm| && forall k :: 0 <= k < i ==> !(Gt(norm[k].right, recent.left) && Gt(recent.right, norm[k].left))
    {
      i := i + 1;
    }
  }

  /** The first interval that contains a block. */
  method FindEnclosing(norm: seq<Block>, b: Block) returns (i: nat)
    ensures i <= |norm| && (i < |norm| ==> Encloses(norm[i], b)) && forall k :: 0 <= k < i ==> !Encloses(norm[k], b)
  {
    i := 0;
    while i < |norm| && !Encloses(norm[i], b)
      invariant i <= |norm| && forall k :: 0 <= k < i ==> !Encloses(norm[k], b)
    {
      i := i + 1;
    }
  }

  lemma DrawnMore(out: seq<Block>, more: seq<Block>, block: Block, norm: seq<Block>, duplicate: bool, dsack: Block)
    requires Drawn(out, norm, duplicate, dsack) && block in norm && (more == out || more == out + [block])
    ensures Drawn(more, norm, duplicate, dsack)
  {
  }

  /** `tcp_options_collect_sacks` after the intervals are known: the D-SACK first, then the
      most recent interval, then recently reported ones, then the rest. */
  method Collect(norm: seq<Block>, recvAck: u32, recentValid: bool, recent: Block, duplicate: bool, dsack: Block,
                 history: History, capacity: nat)
    returns (out: seq<Block>, past: History)
    ensures |out| <= capacity && Drawn(out, norm, duplicate, dsack)
    ensures duplicate && capacity > 0 ==> out != [] && out[0] == dsack
    ensures !duplicate && recentValid && capacity > 0 && out != [] ==>
              forall i :: 0 <= i < |norm| && Recent(norm, recent, i) ==> out[0] == norm[i]
    ensures |out| < capacity ==> forall b :: b in norm ==> b in out || Enclosed(out, b)
    ensures past == Reported(norm, recentValid, recent, history)
    ensures out == Picked(Offers(norm, recvAck, recentValid, recent, duplicate, dsack, past), capacity)
  {
    hide Gt, Encloses, Recent, Drawn, Enclosed, Picked, Pushed, Around, Touched, AllAround;
    out, past := [], history;
    DrawnNone(norm, duplicate, dsack);
    PickedNone(capacity);
    var r := |norm|;
    if recentValid {
      r := FindRecent(norm, recent);
      FirstRecent(norm, recent, r);
      TouchedAt(norm, recent, r);
    }
    ghost var offers: seq<Block> := [];
    if duplicate && capacity != 0 {
      out := Duplicate(norm, recvAck, dsack, capacity);
    }
    if duplicate {
      offers := [dsack] + if Gt(dsack.right, recvAck) then Around(norm, dsack) else [];
      if capacity == 0 { PickedFull([], offers, 0); }
      assert [] + offers == offers;
    }
    ghost var all := offers + if r < |norm| then [norm[r]] else [];
    if r < |norm| {
      past := HistoryPush(history, norm[r]);
      var more := AddDistinct(out, capacity, norm[r]);
      DrawnMore(out, more, norm[r], norm, duplicate, dsack);
      NoneEnclose(norm[r]);
      PickedMore(offers, norm[r], capacity);
      out := more;
    } else {
      assert offers + [] == offers;
    }
    out := AddKnown(out, norm, past, capacity, duplicate, dsack, all);
    out := AddRest(out, norm, capacity, duplicate, dsack, all + AllAround(norm, past));
    if !recentValid { assert offers + [] == offers; }
  }

  /** Whatever is offered is taken, or inside something taken, unless there was no room. */
  lemma {:induction false} Served(offers: seq<Block>, b: Block, capacity: nat)
    requires b in offers
    ensures
      var out := Picked(offers, capacity);
      b in out || Enclosed(out, b) || |out| >= capacity
  {
    hide Encloses;
    var n := |offers| - 1;
    var less, last := offers[..n], offers[n];
    assert offers == less + [last];
    PickedMore(less, last, capacity);
    var was, out := Picked(less, capacity), Picked(offers, capacity);
    if b in less {
      Served(less, b, capacity);
      if |was| < capacity { StillEnclosed(was, out, b); }
    } else {
      assert b == last;
      if !Enclosed(was, b) && |was| < capacity { assert out[|was|] == b; }
    }
  }

  /** Recently reported blocks are repeated first: an interval around one is left out only if
      everything reported is a D-SACK, most recent, or around another such block. */
  lemma KnownFirst(norm: seq<Block>, recvAck: u32, recentValid: bool, recent: Block, duplicate: bool, dsack: Block,
                   past: seq<Block>, capacity: nat, b: Block, x: Block)
    requires b in past && Around(norm, b) == [x]
    ensures
      var out := Picked(Offers(norm, recvAck, recentValid, recent, duplicate, dsack, past), capacity);
      var urgent := Urgent(norm, recvAck, recentValid, recent, duplicate, dsack, past);
      x in out || Enclosed(out, x) || forall y :: y in out ==> y in urgent
  {
    hide Enclosed, Around, Touched, Gt;
    var first := Urgent(norm, recvAck, recentValid, recent, duplicate, dsack, past);
    AroundKnown(norm, past, b);
    Served(first + norm, x, capacity);
    if |Picked(first, capacity)| >= capacity {
      PickedFull(first, norm, capacity);
      PickedFrom(first, capacity);
    } else {
      Served(first, x, capacity);
      PickedGrows(first, norm, capacity);
      StillEnclosed(Picked(first, capacity), Picked(first + norm, capacity), x);
    }
  }

  lemma {:induction false} AroundKnown(norm: seq<Block>, past: seq<Block>, b: Block)
    requires b in past
    ensures forall x :: x in Around(norm, b) ==> x in AllAround(norm, past)
  {
    hide Around;
    var n := |past| - 1;
    assert past == past[..n] + [past[n]];
    if b in past[..n] { AroundKnown(norm, past[..n], b); }
  }

  lemma {:induction false} PickedFrom(offers: seq<Block>, capacity: nat)
    ensures forall y :: y in Picked(offers, capacity) ==> y in offers
  {
    hide Enclosed;
    if offers != [] { PickedFrom(offers[..|offers| - 1], capacity); }
  }

  lemma {:induction false} PickedGrows(offers: seq<Block>, more: seq<Block>, capacity: nat)
    ensures Picked(offers, capacity) <= Picked(offers + more, capacity)
    decreases |more|
  {
    hide Enclosed;
    if more == [] {
      assert offers + more == offers;
    } else {
      var n := |more| - 1;
      PickedGrows(offers, more[..n], capacity);
      assert offers + more == offers + more[..n] + [more[n]];
      PickedMore(offers + more[..n], more[n], capacity);
    }
  }

  lemma PickedNone(capacity: nat)
    ensures Picked([], capacity) == []
  {
  }

  ghost predicate Recent(norm: seq<Block>, recent: Block, i: nat) {
    && i < |norm| && Gt(norm[i].right, recent.left) && Gt(recent.right, norm[i].left)
    && forall k :: 0 <= k < i ==> !(Gt(norm[k].right, recent.left) && Gt(recent.right, norm[k].left))
  }

  lemma FirstRecent(norm: seq<Block>, recent: Block, r: nat)
    requires r <= |norm| && (r < |norm| ==> Gt(norm[r].right, recent.left) && Gt(recent.right, norm[r].left))
    requires forall k :: 0 <= k < r ==> !(Gt(norm[k].right, recent.left) && Gt(recent.right, norm[k].left))
    ensures forall i :: 0 <= i < |norm| && Recent(norm, recent, i) ==> i == r
  {
  }

  lemma DrawnNone(norm: seq<Block>, duplicate: bool, dsack: Block)
    ensures Drawn([], norm, duplicate, dsack)
  {
  }

  lemma NoneEnclose(b: Block)
    ensures !Enclosed([], b)
  {
  }

  /** A D-SACK above the cumulative ACK is followed by the interval that contains it. */
  method Duplicate(norm: seq<Block>, recvAck: u32, dsack: Block, capacity: nat) returns (out: seq<Block>)
    requires capacity > 0
    ensures 1 <= |out| <= capacity && out[0] == dsack && Drawn(out, norm, true, dsack)
    ensures capacity > 1 && Gt(dsack.right, recvAck) && Enclosed(norm, dsack) ==>
              || (|out| == 2 && Encloses(out[1], dsack))
              || exists i :: 0 <= i < |norm| && Encloses(norm[i], dsack) && Encloses(dsack, norm[i])
    ensures out == Picked([dsack] + if Gt(dsack.right, recvAck) then Around(norm, dsack) else [], capacity)
  {
    hide Picked, Around, Gt;
    out := [dsack];
    PickedNone(capacity);
    NoneEnclose(dsack);
    PickedMore([], dsack, capacity);
    assert [] + [dsack] == [dsack] && [dsack] + [] == [dsack];
    if Gt(dsack.right, recvAck) {
      var i := FindEnclosing(norm, dsack);
      AroundAt(norm, dsack, i);
      if i < |norm| {
        PickedMore([dsack], norm[i], capacity);
        out := AddDistinct(out, capacity, norm[i]);
      }
    }
  }

  /** Intervals that contain recently reported blocks. */
  method AddKnown(first: seq<Block>, norm: seq<Block>, past: History, capacity: nat, ghost duplicate: bool,
                  ghost dsack: Block, ghost offers: seq<Block>)
    returns (out: seq<Block>)
    requires |first| <= capacity && Drawn(first, norm, duplicate, dsack) && first == Picked(offers, capacity)
    ensures first <= out && |out| <= capacity && Drawn(out, norm, duplicate, dsack)
    ensures out == Picked(offers + AllAround(norm, past), capacity)
  {
    hide Drawn, Encloses, Enclosed, Picked, Around;
    out := first;
    var h := 0;
    assert past[..0] == [] && offers + [] == offers;
    while h < |past| && |out| < capacity
      invariant h <= |past| && first <= out && |out| <= capacity && Drawn(out, norm, duplicate, dsack)
      invariant out == Picked(offers + AllAround(norm, past[..h]), capacity)
    {
      ghost var known := offers + AllAround(norm, past[..h]);
      AroundNext(norm, past, h);
      var i := FindEnclosing(norm, past[h]);
      AroundAt(norm, past[h], i);
      assert offers + AllAround(norm, past[..h + 1]) == known + Around(norm, past[h]);
      if i < |norm| {
        var more := AddDistinct(out, capacity, norm[i]);
        DrawnMore(out, more, norm[i], norm, duplicate, dsack);
        PickedMore(known, norm[i], capacity);
        out := more;
      } else {
        assert known + [] == known;
      }
      h := h + 1;
    }
    AroundSplit(norm, past, h);
    if h < |past| {
      PickedFull(offers + AllAround(norm, past[..h]), AroundFrom(norm, past, h), capacity);
      assert offers + AllAround(norm, past) == offers + AllAround(norm, past[..h]) + AroundFrom(norm, past, h);
    } else {
      assert past[..h] == past;
    }
  }

  lemma AroundNext(norm: seq<Block>, past: seq<Block>, h: nat)
    requires h < |past|
    ensures AllAround(norm, past[..h + 1]) == AllAround(norm, past[..h]) + Around(norm, past[h])
  {
    assert past[..h + 1][..h] == past[..h];
  }

  /** What blocks from the `h`-th on add. */
  ghost function AroundFrom(norm: seq<Block>, past: seq<Block>, h: nat): seq<Block> {
    if h >= |past| then [] else AroundFrom(norm, past[..|past| - 1], h) + Around(norm, past[|past| - 1])
  }

  lemma {:induction false} AroundSplit(norm: seq<Block>, past: seq<Block>, h: nat)
    requires h <= |past|
    ensures AllAround(norm, past) == AllAround(norm, past[..h]) + AroundFrom(norm, past, h)
  {
    hide Around;
    if h < |past| {
      var n := |past| - 1;
      AroundSplit(norm, past[..n], h);
      assert past[..n][..h] == past[..h];
    } else {
      assert past[..h] == past;
    }
  }

  /** All other intervals while there is room. */
  method AddRest(first: seq<Block>, norm: seq<Block>, capacity: nat, ghost duplicate: bool, ghost dsack: Block,
                 ghost offers: seq<Block>)
    returns (out: seq<Block>)
    requires |first| <= capacity && Drawn(first, norm, duplicate, dsack) && first == Picked(offers, capacity)
    ensures out == Picked(offers + norm, capacity)
    ensures first <= out && |out| <= capacity && Drawn(out, norm, duplicate, dsack)
    ensures |out| < capacity ==> forall b :: b in norm ==> b in out || Enclosed(out, b)
  {
    hide Drawn, Encloses, Picked;
    out := first;
    var i := 0;
    assert offers + norm[..0] == offers;
    while i < |norm| && |out| < capacity
      invariant i <= |norm| && first <= out && |out| <= capacity && Drawn(out, norm, duplicate, dsack)
      invariant out == Picked(offers + norm[..i], capacity)
      invariant forall k :: 0 <= k < i ==> norm[k] in out || Enclosed(out, norm[k])
    {
      var more := AddDistinct(out, capacity, norm[i]);
      DrawnMore(out, more, norm[i], norm, duplicate, dsack);
      forall k | 0 <= k < i
        ensures norm[k] in more || Enclosed(more, norm[k])
      {
        StillEnclosed(out, more, norm[k]);
      }
      if more == out + [norm[i]] { assert more[|out|] == norm[i]; }
      PickedMore(offers + norm[..i], norm[i], capacity);
      assert offers + norm[..i + 1] == offers + norm[..i] + [norm[i]];
      out := more;
      i := i + 1;
    }
    if i < |norm| {
      PickedFull(offers + norm[..i], norm[i..], capacity);
      assert offers + norm == offers + norm[..i] + norm[i..];
    } else {
      assert norm[..i] == norm;
    }
  }

  lemma StillEnclosed(out: seq<Block>, more: seq<Block>, b: Block)
    requires out <= more && (b in out || Enclosed(out, b))
    ensures b in more || Enclosed(more, b)
  {
    if b in out {
      var i :| 0 <= i < |out| && out[i] == b;
      assert more[i] == b;
    } else {
      var i :| 0 <= i < |out| && Encloses(out[i], b);
      assert more[i] == out[i];
    }
  }

  /** What the receiver remembers for its next report. */
  datatype Notes = Notes(recentValid: bool, recent: Block, duplicate: bool, dsack: Block, history: History)

  const NO_NOTES := Notes(false, Block(0, 0), false, Block(0, 0), [])

  /** `tcp_ofo_purge` forgets the notes: there is nothing left to report. */
  function Purged(notes: Notes): Notes {
    notes.(recentValid := false, duplicate := false, history := [])
  }

  /** Nothing that was received is given up. */
  ghost predicate Keeps(l0: seq<Piece>, n0: int, l: seq<Piece>, n: int) {
    forall q :: Had(l0, n0, q) ==> Had(l, n, q)
  }

  lemma KeepsAll(l0: seq<Piece>, n0: int, l: seq<Piece>, n: int, s: Span)
    requires Keeps(l0, n0, l, n) && AllHad(l0, n0, s)
    ensures AllHad(l, n, s)
  {
  }

  /** The noted D-SACK block covers octets that were received before. */
  ghost predicate Backed(notes: Notes, dupAt: Span, held: seq<Piece>, nxt: int) {
    notes.duplicate ==>
      CodeAt(notes.dsack, dupAt) && dupAt.left < dupAt.right < dupAt.left + HALF && AllHad(held, nxt, dupAt)
  }

  /** Reported block `i` stands for octets the receiver has; all but a D-SACK for
      octets it holds out of order. */
  ghost predicate Honest(out: seq<Block>, spans: seq<Span>, held: seq<Piece>, nxt: int, duplicate: bool, dupAt: Span) {
    |spans| == |out| && forall i :: 0 <= i < |out| ==>
      && CodeAt(out[i], spans[i]) && spans[i].left < spans[i].right < spans[i].left + HALF
      && AllHad(held, nxt, spans[i])
      && (|| (spans[i] == dupAt && i == 0 && duplicate)
          || forall q :: spans[i].left <= q < spans[i].right ==> Covered(held, q))
  }

  /** Which interval a reported block is. */
  ghost function SpanOf(b: Block, norm: seq<Block>, at: seq<Span>): Span
    requires |norm| == |at| && b in norm
  {
    var i :| 0 <= i < |norm| && norm[i] == b;
    at[i]
  }

  lemma OwnSpan(b: Block, norm: seq<Block>, at: seq<Span>, held: seq<Piece>, nxt: int, hi: int)
    requires Sorted(norm, at, nxt, hi) && b in norm && forall q :: In(at, q) <==> Covered(held, q)
    ensures
      var s := SpanOf(b, norm, at);
      CodeAt(b, s) && s.left < s.right < s.left + HALF && s in at &&
        (forall q :: s.left <= q < s.right ==> Covered(held, q)) && AllHad(held, nxt, s)
  {
    var s := SpanOf(b, norm, at);
    var i :| 0 <= i < |norm| && norm[i] == b && at[i] == s;
    forall q | s.left <= q < s.right
      ensures Covered(held, q)
    {
      assert In(at, q);
    }
  }

  ghost function SpansOf(out: seq<Block>, norm: seq<Block>, at: seq<Span>, dupAt: Span): seq<Span>
    requires |norm| == |at|
  {
    seq(|out|, i requires 0 <= i < |out| => if out[i] in norm then SpanOf(out[i], norm, at) else dupAt)
  }

  lemma HonestReport(out: seq<Block>, norm: seq<Block>, at: seq<Span>, held: seq<Piece>, nxt: int, hi: int,
                     notes: Notes, dupAt: Span)
    requires
      && Sorted(norm, at, nxt, hi) && Drawn(out, norm, notes.duplicate, notes.dsack) && Backed(notes, dupAt, held, nxt)
    requires forall q :: In(at, q) <==> Covered(held, q)
    ensures Honest(out, SpansOf(out, norm, at, dupAt), held, nxt, notes.duplicate, dupAt)
  {
    var spans := SpansOf(out, norm, at, dupAt);
    forall i | 0 <= i < |out|
      ensures CodeAt(out[i], spans[i]) && spans[i].left < spans[i].right && AllHad(held, nxt, spans[i])
      ensures
        || (spans[i] == dupAt && i == 0 && notes.duplicate)
        || forall q :: spans[i].left <= q < spans[i].right ==> Covered(held, q)
    {
      if out[i] in norm { OwnSpan(out[i], norm, at, held, nxt, hi); }
    }
  }

  /** Intervals with gaps between them do not contain one another. */
  lemma EnclosesSelf(norm: seq<Block>, at: seq<Span>, nxt: int, hi: int, i: nat, j: nat)
    requires Sorted(norm, at, nxt, hi) && i < |norm| && j < |norm| && Encloses(norm[i], norm[j])
    ensures i == j
  {
    assert CodeAt(norm[i], at[i]) && CodeAt(norm[j], at[j]);
    SerialOrder(at[i].left, at[j].left);
    SerialOrder(at[j].right, at[i].right);
  }

  /** Without a D-SACK and with room to spare, everything held is reported. */
  lemma WholeReport(out: seq<Block>, norm: seq<Block>, at: seq<Span>, held: seq<Piece>, nxt: int, hi: int,
                    notes: Notes, dupAt: Span)
    requires Sorted(norm, at, nxt, hi) && Drawn(out, norm, notes.duplicate, notes.dsack) && !notes.duplicate
    requires (forall q :: In(at, q) <==> Covered(held, q)) && forall b :: b in norm ==> b in out || Enclosed(out, b)
    ensures forall q :: Covered(held, q) ==> In(SpansOf(out, norm, at, dupAt), q)
  {
    hide Sorted, Encloses, Covered;
    WindowSize(norm, at, nxt, hi);
    var spans := SpansOf(out, norm, at, dupAt);
    forall q | Covered(held, q)
      ensures In(spans, q)
    {
      var j :| 0 <= j < |at| && at[j].left <= q < at[j].right;
      assert norm[j] in norm;
      if norm[j] !in out {
        var k :| 0 <= k < |out| && Encloses(out[k], norm[j]);
        var i :| 0 <= i < |norm| && norm[i] == out[k];
        EnclosesSelf(norm, at, nxt, hi, i, j);
      }
      var k :| 0 <= k < |out| && out[k] == norm[j];
      UniqueSpan(norm, at, nxt, hi, j);
      assert spans[k] == at[j];
    }
  }

  lemma UniqueSpan(norm: seq<Block>, at: seq<Span>, nxt: int, hi: int, j: nat)
    requires Sorted(norm, at, nxt, hi) && j < |norm|
    ensures SpanOf(norm[j], norm, at) == at[j]
  {
    var i :| 0 <= i < |norm| && norm[i] == norm[j] && at[i] == SpanOf(norm[j], norm, at);
    assert CodeAt(norm[i], at[i]) && CodeAt(norm[j], at[j]);
    SerialOrder(at[i].left, at[j].left);
    SerialOrder(at[i].right, at[j].right);
  }

  /** The intervals are exactly what is held. */
  ghost predicate Summary(norm: seq<Block>, held: seq<Piece>, nxt: int, hi: int) {
    exists at :: Sorted(norm, at, nxt, hi) && forall q :: In(at, q) <==> Covered(held, q)
  }

  /** A report says what is most urgent, as far as there is room.  The notes it was made from are
      used up, but for a D-SACK that found no room; the history has the interval reported as recent. */
  ghost predicate Says(out: seq<Block>, after: Notes, norm: seq<Block>, recvAck: u32, notes: Notes, capacity: nat) {
    && out == Picked(Offers(norm, recvAck, notes.recentValid, notes.recent, notes.duplicate, notes.dsack,
                            after.history), capacity)
    && after.history == Reported(norm, notes.recentValid, notes.recent, notes.history)
    && !after.recentValid && after.recent == notes.recent
    && after.duplicate == (notes.duplicate && capacity == 0) && after.dsack == notes.dsack
  }

  /** `tcp_options_collect_sacks`: an honest report, complete when there is room. */
  method Report(segs: seq<Segment>, recvAck: u32, notes: Notes, capacity: nat, ghost held: seq<Piece>, ghost nxt: int,
                ghost hi: int, ghost dupAt: Span)
    returns (out: seq<Block>, after: Notes, ghost spans: seq<Span>, ghost norm: seq<Block>)
    requires
      && Listed(segs, held) && Ordered(held) && Within(held, nxt, hi) && hi - nxt < HALF && recvAck == Wrap(nxt)
      && |segs| <= TcpOfo.MAX_SEGS
    requires Backed(notes, dupAt, held, nxt)
    ensures |out| <= capacity && Honest(out, spans, held, nxt, notes.duplicate, dupAt)
    ensures !notes.duplicate && |out| < capacity ==> forall q :: Covered(held, q) ==> In(spans, q)
    ensures Backed(after, dupAt, held, nxt) && !after.recentValid && (capacity > 0 ==> !after.duplicate)
    ensures Summary(norm, held, nxt, hi) && Says(out, after, norm, recvAck, notes, capacity)
  {
    hide Listed, Ordered, Within, Wrap, Sorted, Covered, In, Drawn, Honest, Enclosed, SpansOf, Backed, Picked, Offers;
    var intervals, at := Normalize(segs, recvAck, held, nxt, hi);
    norm := intervals;
    WindowSize(norm, at, nxt, hi);
    var past;
    out, past := Collect(intervals, recvAck, notes.recentValid, notes.recent, notes.duplicate, notes.dsack,
                         notes.history, capacity);
    spans := SpansOf(out, norm, at, dupAt);
    HonestReport(out, norm, at, held, nxt, hi, notes, dupAt);
    if !notes.duplicate && |out| < capacity { WholeReport(out, norm, at, held, nxt, hi, notes, dupAt); }
    after := Notes(false, notes.recent, if capacity == 0 then notes.duplicate else false, notes.dsack, past);
    BackedAfter(notes, after, dupAt, held, nxt);
  }

  lemma BackedAfter(notes: Notes, after: Notes, dupAt: Span, held: seq<Piece>, nxt: int)
    requires Backed(notes, dupAt, held, nxt) && (after.duplicate ==> notes.duplicate && after.dsack == notes.dsack)
    ensures Backed(after, dupAt, held, nxt)
  {
  }
}
