/** Out-of-order reassembly of one TCP stream: admission, overlap trimming,
    and accounting (pro-stack/tcp_ofo.c). */
module TcpOfo {
  import opened Serial
  import opened Segments
  import opened RbTree
  import opened OfoIndex
  import opened OfoStore
  import opened Reassembly

  const MAX_SEGS := 32
  const MAX_BYTES := 262144
  const OWNER_MAX_BYTES := 4194304
  const CHUNK_SIZE := 2048
  const LOW_WATER := 64
  const HIGH_WATER := 128
  const MAX_WINDOW := 0x1000_0000

  /** Per-stream limits, lower under pressure for segments far ahead. */
  function Limits(pressure: bool, distance: int): (int, int) {
    if !pressure then (MAX_SEGS, MAX_BYTES)
    else if distance <= 16384 then (8, 16384)
    else if distance <= 65536 then (16, 32768)
    else (24, 49152)
  }

  /** What all streams of one owner share. */
  class Owner {
    var bytes: nat
    var segments: nat
    var pressure: bool

    /** Whatever the pools say, pressure begins at three quarters and does not end above half. */
    ghost predicate Pressed(was: bool)
      reads this
    {
      bytes >= 3145728 || (was && bytes > 2097152) ==> pressure
    }

    /** Pressure begins when a pool is scarce or three quarters of the memory is used, and ends when
        both pools are ample and at most half is.  Pool levels are read from the environment. */
    method UpdatePressure() returns (ghost scarce: bool, ghost ample: bool)
      modifies this`pressure
      ensures pressure == if old(pressure) then !ample || bytes > 2097152 else scarce || bytes >= 3145728
    {
      var ofoAvailable: nat := *;
      var payloadAvailable: nat := *;
      scarce := ofoAvailable <= LOW_WATER || payloadAvailable <= LOW_WATER;
      ample := ofoAvailable >= HIGH_WATER && payloadAvailable >= HIGH_WATER;
      if !pressure {
        if ofoAvailable <= LOW_WATER || payloadAvailable <= LOW_WATER || bytes >= OWNER_MAX_BYTES * 75 / 100 {
          pressure := true;
        }
      } else if ofoAvailable >= HIGH_WATER && payloadAvailable >= HIGH_WATER && bytes <= OWNER_MAX_BYTES * 50 / 100 {
        pressure := false;
      }
    }
  }

  /** How far pieces may lie apart while some of them are stale. */
  const REACH := HALF / 2 + 2 * MAX_WINDOW

  class OfoQueue {
    const store: Store
    const owner: Owner
    var recvAck: u32
    var size: nat
    var used: nat
    var count: nat
    var bytes: nat
    var peak: int
    ghost var nxt: int      // unwrapped recvAck
    ghost var refused: nat  // pieces turned away by a limit or the allocator

    constructor (irs: u32, size: nat, owner: Owner)
      requires size <= MAX_WINDOW && owner.bytes <= OWNER_MAX_BYTES
      ensures
        && Valid() && count == 0 && nxt == irs && store.held == [] && this.owner == owner && this.size == size
        && used == 0 && bytes == 0 && refused == 0 && peak == 0
      ensures fresh(store.Repr())
    {
      store := new Store();
      this.owner, this.size := owner, size;
      recvAck, used, count, bytes, peak := irs, 0, 0, 0, 0;
      nxt, refused := irs, 0;
    }

    ghost predicate Counted()
      reads this, owner`bytes, owner`segments, store
    {
      Tallied() && bytes <= used
    }

    ghost predicate Tallied()
      reads this, owner`bytes, owner`segments, store
    {
      && count == |store.held| <= MAX_SEGS && bytes == TotalBytes(store.held) <= MAX_BYTES
      && used <= size <= MAX_WINDOW
      && bytes <= owner.bytes <= OWNER_MAX_BYTES && count <= owner.segments
      && recvAck == Wrap(nxt)
    }

    /** The buffered pieces lie one behind the other inside the receive buffer, and every
        counter agrees with them. */
    ghost predicate Valid()
      reads this, owner`bytes, owner`segments, store, store.Repr(), store.chain.nodes
    {
      Sound(nxt)
    }

    /** The same while `nxt` has moved past pieces that start at `lo` or later. */
    ghost predicate Sound(lo: int)
      reads this, owner`bytes, owner`segments, store, store.Repr(), store.chain.nodes
    {
      && this !in store.Repr() && owner !in store.Repr()
      && store.Valid() && Counted() && Ordered(store.held) && AllSolid(store.held) && Within(store.held, lo, nxt + size)
    }

    /** The same without any order: tree and list hold the same pieces. */
    ghost predicate Rough(lo: int)
      reads this, owner`bytes, owner`segments, store, store.Repr(), store.chain.nodes
    {
      && this !in store.Repr() && owner !in store.Repr()
      && store.Loose() && Counted() && AllSolid(store.held) && Within(store.held, lo, nxt + size)
    }

    /** Tree and list agree, and the pieces lie one behind the other. */
    ghost predicate Neat()
      reads store, store.index, store.chain
    {
      store.Agree() && Ordered(store.held)
    }

    /** Everything held and the window lie well within half the sequence space. */
    ghost predicate Near(lo: int)
      reads this
    {
      lo <= nxt && nxt + size <= lo + HALF / 2
    }

    lemma Smooth(lo: int)
      ensures Sound(lo) <==> Rough(lo) && Neat()
    {
      if Sound(lo) { store.ValidLoose(); }
    }

    lemma Plain()
      requires Valid()
      ensures Rough(nxt) && Near(nxt) && Neat()
    {
      Smooth(nxt);
    }

    /** Links and counters are right, but list and tree disagree about the order. */
    ghost predicate Torn()
      reads this, owner`bytes, owner`segments, store, store.Repr(), store.chain.nodes
    {
      Rough(nxt) && !store.Agree()
    }

    function Window(): nat
      reads this
    {
      if used >= size then 0 else size - used
    }

    /** What insertion and trimming leave alone: bytes not counted as out of order,
        and what the other streams of the owner hold. */
    twostate predicate SameRest()
      reads this, owner
    {
      used - bytes == old(used) - old(bytes) && SameOthers()
    }

    /** What the other streams of the owner hold stays the same. */
    twostate predicate SameOthers()
      reads this, owner
    {
      && owner.bytes - bytes == old(owner.bytes) - old(bytes)
      && owner.segments - count == old(owner.segments) - old(count)
    }

    /** The limits that `tcp_ofo_link` checks before it allocates. */
    method Admit(start: u32, len: nat, ghost p: int) returns (ok: bool, episode: int, ghost granted: bool)
      requires Counted() && start == Wrap(p) && nxt <= p <= nxt + size
      modifies owner`pressure, this`refused
      ensures episode == (if p - nxt < peak then peak else p - nxt) && refused == old(refused) + if ok then 0 else 1
      ensures owner.Pressed(old(owner.pressure))
      ensures
        var segs := if !owner.pressure then 32 else if episode <= 16384 then 8 else if episode <= 65536 then 16 else 24;
        var most := if !owner.pressure then 262144 else if episode <= 16384 then 16384
                    else if episode <= 65536 then 32768 else 49152;
        ok <==> granted && len <= Window() && len <= 2048 && len <= OWNER_MAX_BYTES - owner.bytes
                && count < segs && bytes + len <= most
    {
      SerialOrder(p, nxt);
      var distance := if Gt(start, recvAck) then Sub32(start, recvAck) else 0;
      episode := if distance < peak then peak else distance;
      var _, _ := owner.UpdatePressure();
      var limits := Limits(owner.pressure, episode);
      var pools: bool := *;
      granted := pools;
      ok := !(len > Window() || count >= limits.0 || bytes > limits.1 || len > limits.1 - bytes
              || owner.bytes > OWNER_MAX_BYTES || len > OWNER_MAX_BYTES - owner.bytes || len > CHUNK_SIZE || !pools);
      refused := if ok then refused else refused + 1;
    }

    /** Count one stored piece. */
    method Account(len: nat, episode: int)
      modifies this`count, this`bytes, this`used, this`peak, owner
      ensures count == old(count) + 1 && bytes == old(bytes) + len && used == old(used) + len
      ensures owner.segments == old(owner.segments) + 1 && owner.bytes == old(owner.bytes) + len && peak == episode
      ensures owner.Pressed(old(owner.pressure))
    {
      count := count + 1;
      bytes := bytes + len;
      peak := episode;
      used := used + len;
      owner.segments := owner.segments + 1;
      owner.bytes := owner.bytes + len;
      var _, _ := owner.UpdatePressure();
    }

    /** Allocate, enter and count a piece: in good order where it fits, or a stray FIN in front of
        the piece it lies in. */
    method Keep(start: u32, data: seq<byte>, fin: bool, before: Node?, episode: int, ghost good: bool, ghost k: nat,
                ghost x: Piece, ghost lo: int)
      requires Rough(lo) && Near(lo) && x == Piece(x.pos, data, fin) && start == Wrap(x.pos)
      requires nxt <= x.pos && x.End() <= nxt + size
      requires Solid(x) && k <= |store.held| && before == Nth(store.chain.nodes, k)
      requires good ==> Valid() && (Fits(store.held, k, x) || Strays(store.held, k, x))
      requires
        && count < MAX_SEGS && |data| <= MAX_BYTES - bytes && used + |data| <= size
        && |data| <= OWNER_MAX_BYTES - owner.bytes
      modifies this, owner, store.Repr()
      ensures nxt == old(nxt) && size == old(size) && store.held == Placed(old(store.held), k, x)
      ensures before == Nth(store.chain.nodes, k + 1) && refused == old(refused)
      ensures fresh(store.Repr() - old(store.Repr())) && SameRest() && Rough(lo)
      ensures good ==> if old(Fits(store.held, k, x)) then Valid() else Torn()
    {
      hide Ordered, AllSolid, TotalBytes, Store.Valid, Store.Loose, Fits, Strays, Goes;
      ghost var t := k;
      if good {
        t := GoesTo(store.held, k, x);
        if t == k { PlacedKeeps(store.held, k, x, nxt, nxt + size); }
        PlacedSolid(store.held, k, x, nxt, nxt + size);
        Agreement();
      }
      PlacedSolid(store.held, k, x, lo, nxt + size);
      TotalPlaced(store.held, k, x);
      store.Put(start, data, fin, before, good, k, t, x, nxt);
      Account(|data|, episode);
    }

    /** Buffer a piece, if the limits and the allocator allow. */
    method LinkNew(start: u32, data: seq<byte>, fin: bool, before: Node?, ghost good: bool, ghost k: nat,
                   ghost x: Piece, ghost lo: int)
      returns (r: int)
      requires Rough(lo) && Near(lo) && x == Piece(x.pos, data, fin) && start == Wrap(x.pos)
      requires nxt <= x.pos && x.End() <= nxt + size
      requires Solid(x) && k <= |store.held| && before == Nth(store.chain.nodes, k)
      requires good ==> Valid() && (Fits(store.held, k, x) || Strays(store.held, k, x))
      modifies this, owner, store.Repr()
      ensures nxt == old(nxt) && size == old(size) && (r == 0 || r == -1) && refused == old(refused) - r
      ensures fresh(store.Repr() - old(store.Repr())) && SameRest() && Rough(lo)
      ensures store.held == if r == 0 then Placed(old(store.held), k, x) else old(store.held)
      ensures r == 0 ==> before == Nth(store.chain.nodes, k + 1)
      ensures good ==> if r == 0 && !old(Fits(store.held, k, x)) then Torn() else Valid()
    {
      hide Ordered, AllSolid, TotalBytes, Within, Store.Valid, Store.Loose, Fits, Strays;
      var ok, episode, granted := Admit(start, |data|, x.pos);
      r := -1;
      if ok {
        Keep(start, data, fin, before, episode, good, k, x, lo);
        r := 0;
      }
    }

    /** `tcp_ofo_link`: buffer one piece in front of `before`. */
    method Link(start: u32, data: seq<byte>, fin: bool, before: Node?, ghost good: bool, ghost k: nat, ghost x: Piece,
                ghost lo: int)
      returns (r: int)
      requires Rough(lo) && Near(lo) && x == Piece(x.pos, data, fin) && start == Wrap(x.pos)
      requires nxt <= x.pos && x.End() <= nxt + size
      requires k <= |store.held| && before == Nth(store.chain.nodes, k)
      requires good ==> Valid() && Behind(store.held, k, x.pos)
      requires good && k < |store.held| ==> x.End() <= store.held[k].pos || Strays(store.held, k, x)
      modifies this, owner, store.Repr()
      ensures nxt == old(nxt) && size == old(size) && (r == 0 || r == -1) && refused == old(refused) - r
      ensures fresh(store.Repr() - old(store.Repr())) && SameRest() && Rough(lo)
      ensures
        store.held == if r == 0 && Adds(old(store.held), k, x) then Placed(old(store.held), k, x) else old(store.held)
      ensures r == 0 && Adds(old(store.held), k, x) ==> before == Nth(store.chain.nodes, k + 1)
      ensures good ==> if r == 0 && old(Strays(store.held, k, x)) then Torn() else Valid()
    {
      hide Store.Loose, Store.Valid;
      r := 0;
      store.SameLength();
      if data == [] && !fin {
        return;
      }
      if before != null {
        store.Holds(k);
        SerialOrder(store.held[k].pos, x.pos);
        if before.seg.start == start {
          return;
        }
      }
      if good && !Strays(store.held, k, x) { FitsThere(store.held, k, x); }
      r := LinkNew(start, data, fin, before, good, k, x, lo);
    }

    /** Where an insertion of `x` stands: `d` is what is left of it, from `p` on, and `c` is the node
        at place `k` of the list. */
    ghost predicate Blending(was: seq<Piece>, x: Piece, sq: u32, d: seq<byte>, c: Node?, p: int, k: nat, lo: int)
      reads this, owner`bytes, owner`segments, store, store.Repr(), store.chain.nodes
    {
      && Rough(lo) && Near(lo) && Solid(x) && nxt <= x.pos && x.End() <= nxt + size
      && Blended(was, store.held, x, p) && k <= |store.held| && c == Nth(store.chain.nodes, k)
      && x.pos <= p <= x.End() && d == x.data[p - x.pos..] && sq == Wrap(p) && (d != [] || x.fin)
    }

    /** Where a merge of `x` stands: `d` is what is left of it, from `p` on. */
    ghost predicate Merging(was: seq<Piece>, x: Piece, sq: u32, d: seq<byte>, c: Node?, p: int, k: nat, j: nat)
      reads this, owner`bytes, owner`segments, store, store.Repr(), store.chain.nodes
    {
      && Valid() && Ordered(was) && Solid(x) && nxt <= x.pos && x.End() <= nxt + size
      && MergeAt(was, store.held, x, p, k, j) && c == Nth(store.chain.nodes, k)
      && x.pos <= p <= x.End() && d == x.data[p - x.pos..] && sq == Wrap(p) && (d != [] || x.fin)
      && (d == [] && k < |store.held| ==> p <= store.held[k].pos || Strays(store.held, k, x))
      && (d == [] && x.data != [] ==> Covered(was, x.End() - 1))
    }

    /** The comparisons that the insertion loop makes with the current node. */
    lemma Compare(was: seq<Piece>, x: Piece, sq: u32, d: seq<byte>, c: Node?, p: int, k: nat, lo: int)
      requires Blending(was, x, sq, d, c, p, k, lo) && c != null
      ensures k < |store.held| && c.seg == Coded(store.held[k]) && c.next == Nth(store.chain.nodes, k + 1)
      ensures
        var h := store.held[k];
        var curEnd, segEnd := Add32(c.seg.start, |c.seg.data|), Add32(sq, |d|);
        && (Leq(curEnd, sq) <==> h.End() <= p)
        && (Leq(segEnd, c.seg.start) <==> x.End() <= h.pos)
        && (Lt(sq, c.seg.start) <==> p < h.pos)
        && (p <= h.pos ==> Sub32(c.seg.start, sq) == h.pos - p)
        && (p <= h.End() ==> Sub32(curEnd, sq) == h.End() - p)
        && curEnd == Wrap(h.End())
    {
      store.SameLength();
      store.Holds(k);
      var h := store.held[k];
      AddWrap(h.pos, |h.data|);
      AddWrap(p, |d|);
      SerialOrder(h.End(), p);
      SerialOrder(x.End(), h.pos);
      SerialOrder(p, h.pos);
      SerialOrder(h.pos, p);
    }

    /** What is left when the node at `k` covers all of it, or up to its end. */
    lemma Skip(was: seq<Piece>, x: Piece, sq: u32, d: seq<byte>, c: Node?, p: int, k: nat, j: nat)
      requires Merging(was, x, sq, d, c, p, k, j) && k < |store.held| && d != []
      requires store.held[k].pos <= p <= store.held[k].End()
      ensures
        var skip := store.held[k].End() - p;
        if skip > |d| || (skip == |d| && !x.fin) then
          Merged(was, store.held, x, x.End()) && FinMerged(was, store.held, x)
        else
          Merging(was, x, Wrap(p + skip), d[skip..], Nth(store.chain.nodes, k + 1), p + skip, k + 1, j + 1)
    {
      var h := store.held[k];
      var skip := h.End() - p;
      assert h == store.held[k..][0] == was[j..][0] == was[j];
      if skip > |d| || (skip == |d| && !x.fin) {
        MergeSkip(was, store.held, x, p, k, j, x.End());
      } else {
        MergeSkip(was, store.held, x, p, k, j, h.End());
        assert d[skip..] == x.data[p + skip - x.pos..];
      }
    }

    /** The same after `left` bytes in front of the node were linked. */
    lemma SkipAfter(was: seq<Piece>, x: Piece, d: seq<byte>, c: Node, p: int, k: nat, j: nat, left: nat)
      requires left < |d| && Merging(was, x, Wrap(p + left), d[left..], c, p + left, k, j)
      requires k < |store.held| && store.held[k].pos <= p + left <= store.held[k].End()
      ensures
        var skip := store.held[k].End() - p;
        if skip > |d| || (skip == |d| && !x.fin) then
          Merged(was, store.held, x, x.End()) && FinMerged(was, store.held, x)
        else
          skip >= 0 && Merging(was, x, Wrap(p + skip), d[skip..], c.next, p + skip, k + 1, j + 1)
    {
      hide Merged, MergeAt, SameFins, FinMerged, Ordered, Wrap;
      var rest, skip := d[left..], store.held[k].End() - p;
      store.ValidLoose();
      Skip(was, x, Wrap(p + left), rest, c, p + left, k, j);
      MergeFacts(was, store.held, x, p + left, k, j);
      store.Holds(k);
      if !(skip > |d| || (skip == |d| && !x.fin)) { assert rest[skip - left..] == d[skip..]; }
    }

    /** What is left when the node at `k` holds everything up to its end. */
    lemma SkipOver(was: seq<Piece>, x: Piece, d: seq<byte>, c: Node?, p: int, k: nat, left: nat, lo: int)
      requires x.pos <= p <= x.End() && d == x.data[p - x.pos..] && left < |d|
      requires Blending(was, x, Wrap(p + left), d[left..], c, p + left, k, lo)
      requires k < |store.held| && store.held[k].pos <= p + left <= store.held[k].End()
      ensures
        var skip := store.held[k].End() - p;
        if skip > |d| || (skip == |d| && !x.fin) then Blended(was, store.held, x, x.End())
        else skip >= 0 && Blending(was, x, Wrap(p + skip), d[skip..], c.next, p + skip, k + 1, lo)
    {
      hide Blended, Wrap, AllSolid, Within, TotalBytes;
      var h := store.held[k];
      store.SameLength();
      store.Holds(k);
      BlendedSkip(was, store.held, x, p + left, k, if h.End() < x.End() then h.End() else x.End());
    }

    /** Link the bytes in front of the current node. */
    method LinkLeft(sq: u32, d: seq<byte>, c: Node, left: nat, ghost was: seq<Piece>, ghost x: Piece,
                    ghost p: int, ghost k: nat, ghost j: nat, ghost good: bool, ghost lo: int)
      returns (r: int)
      requires Blending(was, x, sq, d, c, p, k, lo) && k < |store.held| && p < store.held[k].pos < x.End()
      requires left == store.held[k].pos - p && (good ==> Merging(was, x, sq, d, c, p, k, j))
      modifies this, owner, store.Repr()
      ensures nxt == old(nxt) && size == old(size) && fresh(store.Repr() - old(store.Repr())) && SameRest()
      ensures r == 0 ==> Blending(was, x, Wrap(p + left), d[left..], c, p + left, k + 1, lo)
      ensures r == 0 && good ==> Merging(was, x, Wrap(p + left), d[left..], c, p + left, k + 1, j)
      ensures r == 0 ==> |store.held| == |old(store.held)| + 1 && store.held[k + 1] == old(store.held[k])
      ensures r != 0 ==> r == -1 && Rough(lo) && store.held == old(store.held) && (good ==> Valid())
      ensures refused == old(refused) - r
    {
      hide Merged, MergeAt, Behind, SameFins, FinMerged, Ordered, AllSolid, Within, Store.Valid, Wrap, Add32, Sub32, Lt;
      hide Leq, Store.Loose, Blended, TotalBytes;
      ghost var y := Piece(p, d[..left], false);
      ghost var l := store.held;
      if good {
        MergeFacts(was, l, x, p, k, j);
        MergeLink(was, l, x, p, k, j, y);
      }
      assert y.data == x.data[p - x.pos..p + left - x.pos];
      BlendedMore(was, l, x, k, y, p + left);
      PlacedAt(l, k, y, k + 1);
      assert d[left..] == x.data[p + left - x.pos..];
      r := Link(sq, d[..left], false, c, good, k, y, lo);
    }

    /** One overlap: link what lies in front of the current node, step over the node. */
    method Overlap(sq0: u32, d0: seq<byte>, fin: bool, c0: Node, ghost was: seq<Piece>, ghost x: Piece,
                   ghost p0: int, ghost k0: nat, ghost j0: nat, ghost good: bool, ghost lo: int)
      returns (r: int, more: bool, sq: u32, d: seq<byte>, c: Node?, ghost p: int, ghost k: nat, ghost j: nat)
      requires Blending(was, x, sq0, d0, c0, p0, k0, lo) && x.fin == fin && d0 != []
      requires good ==> Merging(was, x, sq0, d0, c0, p0, k0, j0)
      requires k0 < |store.held| && p0 < store.held[k0].End() && store.held[k0].pos < x.End()
      modifies this, owner, store.Repr()
      ensures nxt == old(nxt) && size == old(size) && fresh(store.Repr() - old(store.Repr())) && SameRest()
      ensures more ==> Blending(was, x, sq, d, c, p, k, lo) && |store.held| - k < |old(store.held)| - k0
      ensures more && good ==> Merging(was, x, sq, d, c, p, k, j) && j == j0 + 1
      ensures !more ==> Rough(lo) && (r == 0 || r == -1) && Blended(was, store.held, x, if r == 0 then x.End() else p0)
      ensures !more && good ==> Valid()
      ensures !more && r != 0 && good ==> SameFins(store.held, was)
      ensures refused == old(refused) - if more then 0 else r
      ensures
        !more && good ==> if r == 0 then Merged(was, store.held, x, x.End()) && FinMerged(was, store.held, x)
                          else Merged(was, store.held, x, p0)
    {
      hide Merged, MergeAt, Behind, SameFins, FinMerged, Ordered, Sound, Rough, Wrap, Add32, Sub32, Lt, Blended;
      if good { MergeFacts(was, store.held, x, p0, k0, j0); }
      Compare(was, x, sq0, d0, c0, p0, k0, lo);
      var curEnd := Add32(c0.seg.start, |c0.seg.data|);
      var skip := Sub32(curEnd, sq0);
      ghost var left := 0;
      r, more, sq, d, c, p, k, j := 0, false, sq0, d0, c0, p0, k0, j0;
      if Lt(sq, c0.seg.start) {
        var front := Sub32(c0.seg.start, sq);
        r := LinkLeft(sq, d, c0, front, was, x, p, k, j, good, lo);
        if r != 0 {
          return;
        }
        left := front;
        k := k + 1;
      }
      SkipOver(was, x, d, c0, p, k, left, lo);
      if good { SkipAfter(was, x, d, c0, p, k, j, left); }
      if skip > |d| || (skip == |d| && !fin) {
        return;
      }
      more := true;
      d, sq, c := d[skip..], curEnd, c0.next;
      p, k, j := p + skip, k + 1, j + 1;
    }

    /** What an insertion comes to: a merge that keeps everything in order, or a stray FIN linked
        in front of the piece it lies in. */
    ghost predicate Outcome(was: seq<Piece>, x: Piece, upto: int, r: int, stray: bool, k: nat)
      reads this, owner`bytes, owner`segments, store, store.Repr(), store.chain.nodes
    {
      if stray && r == 0 then k <= |was| && Torn() && store.held == Placed(was, k, x)
      else
        && Valid() && Merged(was, store.held, x, upto) && (was == [] && r == 0 && Solid(x) ==> store.held == [x])
        && if r == 0 then FinMerged(was, store.held, x) else SameFins(store.held, was)
    }

    /** The insertion loop of `tcp_ofo_queue_insert`, from some node of the list: in good order the
        first that can overlap the segment. */
    method InsertFrom(start: u32, data: seq<byte>, fin: bool, first: Node?, ghost x: Piece, ghost k0: nat,
                      ghost good: bool, ghost lo: int)
      returns (r: int, ghost upto: int)
      requires Blending(store.held, x, start, data, first, x.pos, k0, lo) && x.data == data && x.fin == fin
      requires good ==> Merging(store.held, x, start, data, first, x.pos, k0, k0)
      modifies this, owner, store.Repr()
      ensures nxt == old(nxt) && size == old(size) && (r == 0 || r == -1) && refused == old(refused) - r
      ensures fresh(store.Repr() - old(store.Repr())) && SameRest()
      ensures x.pos <= upto <= x.End() && (r == 0 ==> upto == x.End())
      ensures Rough(lo) && Blended(old(store.held), store.held, x, upto)
      ensures good ==> Outcome(old(store.held), x, upto, r, old(Strays(store.held, k0, x)), k0)
    {
      hide Merged, MergeAt, Behind, SameFins, FinMerged, Ordered, AllSolid, Within, Store.Valid, Wrap, Add32, Sub32, Lt;
      hide Leq, Store.Loose, Blended, TotalBytes;
      ghost var was := store.held;
      var sq, d, c := start, data, first;
      var more := true;
      ghost var p: int, k: nat, j: nat := x.pos, k0, k0;
      if good { MergeFacts(was, store.held, x, p, k, j); }
      while c != null && |d| > 0
        invariant Blending(was, x, sq, d, c, p, k, lo) && nxt == old(nxt) && size == old(size)
        invariant good ==> Merging(was, x, sq, d, c, p, k, j) && j <= |was|
        invariant good && (x.data == [] || was == []) ==> store.held == was && p == x.pos && k == k0
        invariant fresh(store.Repr() - old(store.Repr())) && SameRest() && refused == old(refused)
        decreases |store.held| - k
      {
        if good { MergeFacts(was, store.held, x, p, k, j); }
        Compare(was, x, sq, d, c, p, k, lo);
        var curEnd, segEnd := Add32(c.seg.start, |c.seg.data|), Add32(sq, |d|);
        if Leq(curEnd, sq) {
          if good { MergePass(was, store.held, x, p, k, j); }
          c := c.next;
          k, j := k + 1, j + 1;
          continue;
        }
        if Leq(segEnd, c.seg.start) {
          break;
        }
        upto := p;
        r, more, sq, d, c, p, k, j := Overlap(sq, d, fin, c, was, x, p, k, j, good, lo);
        if !more {
          if r == 0 {
            upto := x.End();
          }
          return;
        }
        if good { MergeFacts(was, store.held, x, p, k, j); }
      }
      r, upto := FinishInsert(sq, d, fin, c, was, x, p, k, j, good, lo);
    }

    /** Link what is left of the segment in front of `c`. */
    method FinishInsert(sq: u32, d: seq<byte>, fin: bool, c: Node?, ghost was: seq<Piece>, ghost x: Piece,
                        ghost p: int, ghost k: nat, ghost j: nat, ghost good: bool, ghost lo: int)
      returns (r: int, ghost upto: int)
      requires Blending(was, x, sq, d, c, p, k, lo) && x.fin == fin
      requires c != null && d != [] ==> k < |store.held| && x.End() <= store.held[k].pos
      requires good ==> Merging(was, x, sq, d, c, p, k, j)
      requires good && (Strays(store.held, k, x) || was == []) ==> store.held == was && p == x.pos
      modifies this, owner, store.Repr()
      ensures nxt == old(nxt) && size == old(size) && (r == 0 || r == -1) && refused == old(refused) - r
      ensures fresh(store.Repr() - old(store.Repr())) && SameRest()
      ensures x.pos <= upto <= x.End() && (r == 0 ==> upto == x.End())
      ensures Rough(lo) && Blended(was, store.held, x, upto)
      ensures good ==> Outcome(was, x, upto, r, old(Strays(store.held, k, x)), k)
    {
      hide Merged, MergeAt, Behind, SameFins, FinMerged, Ordered, AllSolid, Within, Store.Valid, Wrap, Add32, Sub32, Lt;
      hide Leq, Placed, Strays, Adds, Covered, Trimmed, Store.Loose, Blended, TotalBytes;
      LastPart(was, x, sq, d, c, p, k, lo);
      if good {
        MergeFacts(was, store.held, x, p, k, j);
        LastPiece(was, x, sq, d, c, p, k, j);
        if !Strays(store.held, k, x) { MergeFinish(was, store.held, x, p, k, j); }
      }
      r := Link(sq, d, fin, c, good, k, Trimmed(x, p - x.pos), lo);
      upto := if r == 0 then x.End() else p;
    }

    /** What is left of a segment, in any order of the list. */
    lemma LastPart(was: seq<Piece>, x: Piece, sq: u32, d: seq<byte>, c: Node?, p: int, k: nat, lo: int)
      requires Blending(was, x, sq, d, c, p, k, lo)
      requires c != null && d != [] ==> k < |store.held| && x.End() <= store.held[k].pos
      ensures
        var y := Trimmed(x, p - x.pos);
        && y == Piece(p, d, x.fin) && y.End() == x.End() && |store.chain.nodes| == |store.held|
        && Blended(was, Placed(store.held, k, y), x, x.End())
        && (!Adds(store.held, k, y) ==> Blended(was, store.held, x, x.End()))
    {
      hide AllSolid, Within, TotalBytes, Blended;
      store.SameLength();
      var y := Trimmed(x, p - x.pos);
      BlendedMore(was, store.held, x, k, y, x.End());
    }

    /** What is left of a segment at the end of the loop. */
    lemma LastPiece(was: seq<Piece>, x: Piece, sq: u32, d: seq<byte>, c: Node?, p: int, k: nat, j: nat)
      requires Merging(was, x, sq, d, c, p, k, j) && k <= |store.held|
      requires c != null && d != [] ==> k < |store.held| && x.End() <= store.held[k].pos
      requires Strays(store.held, k, x) || was == [] ==> store.held == was && p == x.pos
      ensures
        var y := Trimmed(x, p - x.pos);
        && y == Piece(p, d, x.fin) && y.End() == x.End() && |store.chain.nodes| == |store.held|
        && (k < |store.held| ==> x.End() <= store.held[k].pos || Strays(store.held, k, x))
        && (Strays(store.held, k, x) ==> y == x && Adds(store.held, k, y)) && (Strays(store.held, k, y) ==> y == x)
        && (was == [] ==> y == x && k == 0 && Adds(store.held, k, y) && Placed(store.held, k, y) == [x])
    {
      hide MergeAt, Ordered, AllSolid, Within, TotalBytes, Covered;
      store.ValidLoose();
      store.SameLength();
    }

    /** Find the node to start from and run the loop. */
    method InsertClipped(sq: u32, data: seq<byte>, fin: bool, ghost x: Piece, ghost lo: int)
      returns (r: int, ghost upto: int)
      requires Rough(lo) && Near(lo) && Solid(x) && nxt <= x.pos && x.End() <= nxt + size
      requires x == Piece(x.pos, data, fin) && sq == Wrap(x.pos)
      modifies this, owner, store.Repr()
      ensures nxt == old(nxt) && size == old(size) && (r == 0 || r == -1) && refused == old(refused) - r
      ensures fresh(store.Repr() - old(store.Repr())) && SameRest()
      ensures x.pos <= upto <= x.End() && (r == 0 ==> upto == x.End())
      ensures Rough(lo) && Blended(old(store.held), store.held, x, upto)
      ensures old(Valid()) ==> Inserted(old(store.held), x, upto, r)
    {
      hide Valid, Rough, Near, Blending, Merging, Blended, Stranded, Strays, Outcome, Inserted;
      ghost var good := Valid();
      var cur, s := StartNode(sq, data, fin, x, lo, good);
      r, upto := InsertFrom(sq, data, fin, cur, x, s, good, lo);
      if good { Ending(old(store.held), x, upto, r, s); }
    }

    /** The node the loop starts from: the first at or above the segment, or the one before it. */
    method StartNode(sq: u32, data: seq<byte>, fin: bool, ghost x: Piece, ghost lo: int, ghost good: bool)
      returns (cur: Node?, ghost s: nat)
      requires Rough(lo) && Near(lo) && Solid(x) && nxt <= x.pos && x.End() <= nxt + size && (good ==> Valid())
      requires x == Piece(x.pos, data, fin) && sq == Wrap(x.pos)
      ensures Blending(store.held, x, sq, data, cur, x.pos, s, lo)
      ensures good ==> Merging(store.held, x, sq, data, cur, x.pos, s, s)
      ensures good ==> (Stranded(store.held, x) <==> Strays(store.held, s, x))
    {
      hide MergeAt, Ordered, AllSolid, Within, TotalBytes, Store.Valid, Store.Loose, Blended, Stranded, Strays, Wrap;
      hide Add32, Gt, InWindow;
      ghost var k: nat := 0;
      s := 0;
      if good {
        k, s := Begin(sq, x);
      }
      BlendedNone(store.held, x);
      var before, prev := store.Find(sq, good, x.pos, k, nxt);
      cur := before;
      store.SameLength();
      if prev != null {
        if good {
          store.Holds(k - 1);
          Straddles(prev, sq, k - 1, x.pos);
        }
        if Gt(Add32(prev.seg.start, |prev.seg.data|), sq) {
          cur := prev;
        }
      }
      if !good { s := store.PlaceOf(cur); }
    }

    /** In good order: `k` pieces start before the segment, and the loop starts at place `s`. */
    lemma Begin(sq: u32, x: Piece) returns (k: nat, s: nat)
      requires Valid() && Solid(x) && nxt <= x.pos && x.End() <= nxt + size && sq == Wrap(x.pos)
      ensures store.Agree() && InWindow(store.held, x.pos, nxt) && k <= |store.held|
      ensures forall i :: 0 <= i < k ==> store.held[i].pos < x.pos
      ensures forall i :: k <= i < |store.held| ==> store.held[i].pos >= x.pos
      ensures s == if 0 < k && store.held[k - 1].End() > x.pos then k - 1 else k
      ensures Merging(store.held, x, sq, x.data, Nth(store.chain.nodes, s), x.pos, s, s)
      ensures Stranded(store.held, x) <==> Strays(store.held, s, x)
      ensures Within(store.held, nxt, nxt + size) && size <= MAX_WINDOW && |store.chain.nodes| == |store.held|
    {
      hide Merged, SameFins, FinMerged, TotalBytes;
      k := StartsBefore(store.held, x.pos);
      s := if 0 < k && store.held[k - 1].End() > x.pos then k - 1 else k;
      MergeFrom(store.held, x, k);
      WhereStranded(store.held, x, k, s);
    }

    lemma Ending(was: seq<Piece>, x: Piece, upto: int, r: int, s: nat)
      requires Outcome(was, x, upto, r, Strays(was, s, x), s) && (Stranded(was, x) <==> Strays(was, s, x))
      ensures Inserted(was, x, upto, r)
    {
      hide Merged, FinMerged, SameFins, Rough, Sound;
    }

    /** The outcome in terms of the segment alone. */
    ghost predicate Inserted(was: seq<Piece>, x: Piece, upto: int, r: int)
      reads this, owner`bytes, owner`segments, store, store.Repr(), store.chain.nodes
    {
      if r == 0 && Stranded(was, x) then Torn() && exists k: nat :: Strays(was, k, x) && store.held == Placed(was, k, x)
      else
        && Valid() && Merged(was, store.held, x, upto) && (was == [] && r == 0 && Solid(x) ==> store.held == [x])
        && if r == 0 then FinMerged(was, store.held, x) else SameFins(store.held, was)
    }

    lemma Straddles(n: Node, sq: u32, i: nat, p: int)
      requires i < |store.held| && n.seg == Coded(store.held[i]) && sq == Wrap(p) && size <= MAX_WINDOW
      requires Within(store.held, nxt, nxt + size) && nxt <= p <= nxt + size
      ensures Gt(Add32(n.seg.start, |n.seg.data|), sq) <==> store.held[i].End() > p
    {
      AddWrap(store.held[i].pos, |store.held[i].data|);
      SerialOrder(store.held[i].End(), p);
    }

    /** A segment offered for buffering starts less than half the sequence space from `nxt`. */
    ghost predicate Offered(sq: u32, data: seq<byte>, fin: bool, s: Piece)
      reads this
    {
      && s == Piece(s.pos, data, fin) && sq == Wrap(s.pos) && -HALF <= s.pos - nxt < HALF && |data| < 0x10000
    }

    /** `tcp_ofo_queue_insert`: the held bytes become the old ones united with the part of the
        segment inside the receive window, whatever the order of the list.  From good order list
        and tree agree afterwards, except when a bare FIN lies strictly inside a held piece. */
    method QueueInsert(sq0: u32, data0: seq<byte>, fin0: bool, ghost s: Piece, ghost lo: int)
      returns (r: int, ghost upto: int)
      requires Rough(lo) && Near(lo) && Offered(sq0, data0, fin0, s)
      modifies this, owner, store.Repr()
      ensures nxt == old(nxt) && size == old(size) && (r == 0 || r == -1) && refused == old(refused) - r
      ensures fresh(store.Repr() - old(store.Repr())) && SameRest()
      ensures
        var x := Clip(s, nxt, nxt + old(Window()));
        && x.pos <= upto <= x.End() && (r == 0 ==> upto == x.End())
        && Rough(lo) && Blended(old(store.held), store.held, x, upto)
      ensures old(Valid()) ==>
                var x := Clip(s, nxt, nxt + old(Window()));
                && Inserted(old(store.held), x, upto, r)
                && (store.Agree() <==> !(r == 0 && Stranded(old(store.held), x)))
    {
      hide Merged, SameFins, FinMerged, Ordered, AllSolid, Within, Store.Valid, TotalBytes, Stranded, Torn, Clip;
      hide Store.Loose, Blended;
      ghost var x := Clip(s, nxt, nxt + Window());
      var sq, data := sq0, data0;
      SerialOrder(s.pos, nxt);
      SubWrap(nxt, s.pos);
      if s.pos <= nxt { SmallWrap(nxt - s.pos); }
      r, upto := 0, x.End();
      if Lt(sq, recvAck) {
        var skip := Sub32(recvAck, sq);
        ClipFront(s, nxt, nxt + Window());
        if skip > |data| || (skip == |data| && !fin0) {
          Nothing(x);
          return;
        }
        data := data[skip..];
        sq := recvAck;
      }
      r, upto := InsertRight(sq, data, fin0, if s.pos < nxt then nxt else s.pos, lo);
    }

    /** Nothing to insert. */
    lemma Nothing(x: Piece)
      requires !Solid(x)
      ensures Blended(store.held, store.held, x, x.End())
      ensures Valid() ==> Inserted(store.held, x, x.End(), 0) && store.Agree() && !Stranded(store.held, x)
    {
      BlendedNone(store.held, x);
      MergeNothing(store.held, x);
    }

    /** The same for a segment that starts at or above RCV.NXT. */
    method InsertRight(sq: u32, data0: seq<byte>, fin0: bool, ghost p: int, ghost lo: int)
      returns (r: int, ghost upto: int)
      requires Rough(lo) && Near(lo) && sq == Wrap(p) && nxt <= p < nxt + HALF && |data0| < 0x10000
      modifies this, owner, store.Repr()
      ensures nxt == old(nxt) && size == old(size) && (r == 0 || r == -1) && refused == old(refused) - r
      ensures fresh(store.Repr() - old(store.Repr())) && SameRest()
      ensures
        var x := Clip(Piece(p, data0, fin0), nxt, nxt + old(Window()));
        && x.pos <= upto <= x.End() && (r == 0 ==> upto == x.End())
        && Rough(lo) && Blended(old(store.held), store.held, x, upto)
      ensures old(Valid()) ==>
                var x := Clip(Piece(p, data0, fin0), nxt, nxt + old(Window()));
                && Inserted(old(store.held), x, upto, r)
                && (store.Agree() <==> !(r == 0 && Stranded(old(store.held), x)))
    {
      hide Merged, SameFins, FinMerged, Ordered, AllSolid, Within, Store.Valid, TotalBytes, Stranded, Torn, Clip;
      hide Store.Loose, Blended;
      ghost var x := Clip(Piece(p, data0, fin0), nxt, nxt + Window());
      var data, fin := data0, fin0;
      var wndEnd := Add32(recvAck, Window());
      AddWrap(nxt, Window());
      ClipCases(Piece(p, data0, fin0), nxt, nxt + Window(), p);
      r, upto := 0, x.End();
      SerialOrder(p, nxt + Window());
      if !Lt(sq, wndEnd) {
        Nothing(x);
        return;
      }
      AddWrap(p, |data|);
      SerialOrder(p + |data|, nxt + Window());
      SerialOrder(nxt + Window(), p);
      if Gt(Add32(sq, |data|), wndEnd) {
        data := data[..Sub32(wndEnd, sq)];
        fin := false;
      }
      if data == [] && !fin {
        Nothing(x);
        return;
      }
      r, upto := InsertClipped(sq, data, fin, x, lo);
      Disagreement();
    }

    lemma Agreement()
      requires Valid()
      ensures store.Agree()
    {
    }

    lemma Disagreement()
      ensures (Valid() ==> store.Agree()) && (Torn() ==> !store.Agree())
    {
    }

    /** One piece leaves the counters. */
    method Discount(len: nat)
      requires count > 0
      modifies this`count, this`bytes, this`peak, owner`bytes, owner`segments
      ensures count == old(count) - 1
      ensures old(bytes) >= len ==> bytes == old(bytes) - len
      ensures old(owner.bytes) >= len ==> owner.bytes == old(owner.bytes) - len
      ensures old(owner.segments) > 0 ==> owner.segments == old(owner.segments) - 1
      ensures peak == if count == 0 then 0 else old(peak)
    {
      count := count - 1;
      bytes := Minus(bytes, len);
      owner.bytes := Minus(owner.bytes, len);
      owner.segments := Minus(owner.segments, 1);
      if count == 0 {
        peak := 0;
      }
    }

    /** `Rough`, but the head is on its way out. */
    ghost predicate Leaving(lo: int)
      reads this, owner`bytes, owner`segments, store, store.Repr(), store.chain.nodes
    {
      && this !in store.Repr() && owner !in store.Repr() && store.held != []
      && store.Loose() && Tallied() && bytes - |store.held[0].data| <= used
      && AllSolid(store.held) && Within(store.held, lo, nxt + size)
    }

    /** `Neat`, but the head may tie with a lone FIN. */
    ghost predicate Straight()
      reads store, store.index, store.chain
    {
      store.HeadLoose() && store.held != [] && Ordered(store.held[1..])
    }

    /** `tcp_ofo_unlink` of the first segment. */
    method Unlink(ghost lo: int)
      requires Leaving(lo)
      modifies this`count, this`bytes, this`peak, owner, store.Repr()
      ensures Rough(lo) && store.held == old(store.held)[1..] && store.Repr() <= old(store.Repr())
      ensures old(Straight()) ==> Neat()
      ensures bytes == old(bytes) - |old(store.held)[0].data|
      ensures SameOthers()
    {
      hide Store.Valid, Store.Loose, Store.HeadLoose, TotalBytes, Ordered, AllSolid, Within;
      TailKeeps(store.held, lo, nxt + size);
      store.HeadSeg();
      var len := |store.chain.head.seg.data|;
      store.DropHead();
      if store.Valid() { Agrees(); }
      Discount(len);
    }

    lemma Agrees()
      requires store.Valid()
      ensures store.Agree()
    {
    }

    /** `tcp_ofo_rekey_after_trim` of the first segment. */
    method TrimHead(skip: nat, ghost lo: int)
      requires Rough(lo) && store.held != [] && 0 < skip <= |store.held[0].data| && nxt <= lo + REACH
      requires skip < |store.held[0].data| || store.held[0].fin
      modifies this`bytes, this`used, owner`bytes, store.Repr()
      ensures Leaving(lo) && store.Repr() == old(store.Repr()) && SameRest()
      ensures store.held == [Trimmed(old(store.held)[0], skip)] + old(store.held)[1..]
      ensures skip < |old(store.held)[0].data| ==> Rough(lo)
      ensures old(Neat()) ==> Straight() && (skip < |old(store.held)[0].data| ==> Neat())
    {
      hide Store.Valid, Store.Loose, Store.HeadLoose, TotalBytes, Ordered;
      TrimKeeps(store.held, skip, lo, nxt + size);
      ghost var neat, k: nat := Neat(), 0;
      if neat {
        TailOrdered(store.held);
        if skip < |store.held[0].data| { TrimOrdered(store.held, skip); }
        k := TrimLeads(store.held, skip);
      }
      store.TrimHead(skip, neat, k, lo);
      if store.Valid() { Agrees(); }
      bytes := Minus(bytes, skip);
      owner.bytes := Minus(owner.bytes, skip);
      used := Minus(used, skip);
    }

    /** `recv_ack += n` */
    method Advance(n: nat, ghost lo: int)
      requires Rough(lo)
      modifies this`recvAck, this`nxt
      ensures Rough(lo) && nxt == old(nxt) + n
    {
      hide Store.Loose, TotalBytes, AllSolid;
      AddWrap(nxt, n);
      recvAck := Add32(recvAck, n);
      nxt := nxt + n;
    }

    /** Charge or release bytes that are delivered but unread. */
    method Charge(n: int, ghost lo: int)
      requires Rough(lo) && bytes <= used + n <= size
      modifies this`used
      ensures Rough(lo) && used == old(used) + n
    {
      hide Store.Loose, TotalBytes, AllSolid, Within;
      used := used + n;
    }

    /** What the code reads off the first segment. */
    lemma Head(lo: int)
      requires Rough(lo)
      ensures store.chain.head == null <==> store.held == []
      ensures store.held != [] ==> Leaving(lo) && store.chain.head.seg == Coded(store.held[0])
      ensures store.held != [] && Neat() ==> Straight()
    {
      hide TotalBytes;
      if store.held != [] {
        store.HeadSeg();
        if Neat() {
          TailOrdered(store.held);
          store.HeadFirst();
        }
      }
    }

    /** `tcp_ofo_purge`: nothing past the end of the stream survives. */
    method Purge(ghost lo: int)
      requires Rough(lo)
      modifies this`count, this`bytes, this`used, this`peak, owner, store.Repr()
      ensures Rough(lo) && Neat() && store.held == [] && store.Repr() <= old(store.Repr()) && SameRest()
    {
      hide Store.Loose, Ordered, TotalBytes, AllSolid, Within, Leaving;
      Head(lo);
      while store.chain.head != null
        invariant Rough(lo) && store.Repr() <= old(store.Repr()) && SameRest()
        invariant store.chain.head == null <==> store.held == []
        invariant store.held != [] ==> Leaving(lo) && store.chain.head.seg == Coded(store.held[0])
        decreases |store.held|
      {
        var len := |store.chain.head.seg.data|;
        ReleaseHead(len, lo);
        Unlink(lo);
        Head(lo);
      }
      Emptied(lo);
    }

    lemma Emptied(lo: int)
      requires Rough(lo) && store.held == []
      ensures bytes == count == 0 && Neat()
    {
      store.NoNodes();
    }

    /** `tcp_ofo_rcvbuf_sub` for the segment about to be unlinked. */
    method ReleaseHead(len: nat, ghost lo: int)
      requires Leaving(lo) && len == |store.held[0].data| && bytes <= used
      modifies this`used
      ensures Leaving(lo) && used == old(used) - len
    {
      hide Store.Loose, TotalBytes, AllSolid, Within;
      TailKeeps(store.held, lo, nxt + size);
      used := Minus(used, len);
    }

    /** `recv_ack += n; rcvbuf_used += n` for bytes delivered directly. */
    method Raise(n: nat, ghost lo: int)
      requires Rough(lo) && n <= Window()
      modifies this`recvAck, this`nxt, this`used
      ensures Rough(lo) && nxt == old(nxt) + n && used == old(used) + n
    {
      hide Store.Loose, TotalBytes, AllSolid, Within;
      Advance(n, lo);
      Charge(n, lo);
    }

    lemma Uses()
      requires Valid()
      ensures bytes == TotalBytes(store.held) && used <= size <= MAX_WINDOW
    {
    }

    /** A bare FIN for a place inside the only buffered piece: unless one of the two is refused, the
        list has it in front of the piece and the tree behind. */
    method StrandFin(sq: u32, data: seq<byte>, m: nat, ghost p: int)
      requires Valid() && store.held == [] && sq == Wrap(p) && 0 < m < |data| < 0x10000
      requires nxt <= p && p + 2 * |data| <= nxt + Window()
      modifies this, owner, store.Repr()
      ensures refused == old(refused) ==>
                && Torn() && !store.Agree()
                && store.held == [Piece(p + m, [], true), Piece(p, data, false)]
    {
      hide Valid, Rough, Near, Torn, Merged, FinMerged, SameFins, Blended, Clip, Wrap, Add32, TotalBytes, Strays;
      ghost var first, fin := Piece(p, data, false), Piece(p + m, [], true);
      Uses();
      Plain();
      Sheltered(first);
      ClipCases(first, nxt, nxt + Window(), p);
      var r, _ := QueueInsert(sq, data, false, first, nxt);
      if r == 0 {
        Uses();
        Plain();
        LoneBytes(first);
        ClipCases(fin, nxt, nxt + Window(), p + m);
        AddWrap(p, m);
        LoneStray(first, fin);
        var _, _ := QueueInsert(Add32(sq, m), [], true, fin, nxt);
      }
    }
  }

  lemma LoneBytes(x: Piece)
    ensures TotalBytes([]) == 0 && TotalBytes([x]) == |x.data|
  {
    assert [x][..0] == [];
  }

  lemma Sheltered(x: Piece)
    requires x.data != []
    ensures !Stranded([], x)
  {
  }

  /** The only piece a FIN can stray into is the one there is. */
  lemma LoneStray(x: Piece, fin: Piece)
    requires x.pos < fin.pos < x.End() && fin.data == [] && fin.fin
    ensures Stranded([x], fin) && forall k: nat :: Strays([x], k, fin) ==> k == 0 && Placed([x], k, fin) == [fin, x]
  {
    assert Strays([x], 0, fin);
  }
}
