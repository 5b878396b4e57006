/** The chunked send buffer (pro-stack/tcp.c) as a byte queue that starts at `head`. */
module SendBuffer {
  import opened Serial

  const CHUNK_SIZE := 2048

  /** Bytes of one chunk; the first `off` are acknowledged. */
  datatype Chunk = Chunk(data: seq<byte>, off: nat)

  ghost predicate Filled(c: Chunk) {
    c.off < |c.data| <= CHUNK_SIZE
  }

  ghost predicate AllFilled(q: seq<Chunk>) {
    forall i :: 0 <= i < |q| ==> Filled(q[i])
  }

  /** No chunk is started while the one before it has room. */
  ghost predicate Packed(q: seq<Chunk>) {
    forall i :: 0 <= i < |q| - 1 ==> |q[i].data| == CHUNK_SIZE
  }

  /** What the chunks hold, in order. */
  ghost function Content(q: seq<Chunk>): seq<byte>
    requires AllFilled(q)
  {
    if q == [] then [] else q[0].data[q[0].off..] + Content(q[1..])
  }

  /** How many bytes the chunk that holds offset `at` still has from there on. */
  ghost function Rest(q: seq<Chunk>, at: nat): nat
    requires AllFilled(q)
  {
    if q == [] then 0
    else
      var n := |q[0].data| - q[0].off;
      if at < n then n - at else Rest(q[1..], at - n)
  }

  lemma {:induction false} RestPositive(q: seq<Chunk>, at: nat)
    requires AllFilled(q) && at < |Content(q)|
    ensures Rest(q, at) > 0
  {
    var n := |q[0].data| - q[0].off;
    if at >= n { RestPositive(q[1..], at - n); }
  }

  lemma {:induction false} ContentAppend(q: seq<Chunk>, c: Chunk)
    requires AllFilled(q) && Filled(c)
    ensures AllFilled(q + [c]) && Content(q + [c]) == Content(q) + c.data[c.off..]
  {
    if q == [] {
      assert [c][1..] == [];
    } else {
      ContentAppend(q[1..], c);
      assert (q + [c])[1..] == q[1..] + [c];
    }
  }

  /** Bytes added to the last chunk come out last. */
  lemma ContentGrow(q: seq<Chunk>, more: seq<byte>)
    requires q != [] && AllFilled(q) && |q[|q| - 1].data| + |more| <= CHUNK_SIZE
    ensures
      var n := |q| - 1;
      var g := q[..n] + [Chunk(q[n].data + more, q[n].off)];
      AllFilled(g) && Content(g) == Content(q) + more
  {
    var n := |q| - 1;
    var c := Chunk(q[n].data + more, q[n].off);
    assert q == q[..n] + [q[n]];
    ContentAppend(q[..n], q[n]);
    ContentAppend(q[..n], c);
    assert c.data[c.off..] == q[n].data[q[n].off..] + more;
  }

  class Buffer {
    var chunks: seq<Chunk>
    var headSeq: u32
    var len: nat
    var unacked: nat
    ghost var head: int    // unwrapped `headSeq`
    ghost var denied: nat  // chunks the allocator turned away

    constructor (start: u32)
      ensures Valid() && head == start && Bytes() == [] && len == unacked == denied == 0
    {
      chunks, headSeq, len, unacked, head, denied := [], start, 0, 0, start, 0;
    }

    ghost predicate Valid()
      reads this
    {
      AllFilled(chunks) && Packed(chunks) && headSeq == Wrap(head) && len == |Content(chunks)| < HALF
    }

    ghost function Bytes(): seq<byte>
      requires Valid()
      reads this
    {
      Content(chunks)
    }

    /** `tcp_sndbuf_reset`: everything is released, and the next byte gets this number. */
    method Reset(start: u32, ghost pos: int)
      requires Valid() && start == Wrap(pos)
      modifies this`chunks, this`len, this`unacked, this`headSeq, this`head
      ensures Valid() && chunks == [] && Bytes() == [] && len == unacked == 0 && head == pos
    {
      unacked := 0;
      while chunks != []
        modifies this`chunks
        decreases |chunks|
      {
        chunks := chunks[1..];
      }
      len, headSeq, head := 0, start, pos;
    }

    /** `tcp_sndbuf_append`: the accepted bytes are a prefix, queued in order. */
    method Append(data: seq<byte>) returns (n: int)
      requires Valid() && len + |data| < HALF
      modifies this`chunks, this`len, this`denied
      ensures Valid() && -1 <= n <= |data| && (n == 0 <==> data == [])
      ensures Bytes() == old(Bytes()) + if n > 0 then data[..n] else []
      ensures n == |data| <==> denied == old(denied)
    {
      if data == [] {
        return 0;
      }
      hide Content;
      var copied := 0;
      ghost var was := Content(chunks);
      while copied < |data|
        invariant 0 <= copied <= |data| && Valid() && Content(chunks) == was + data[..copied] && denied == old(denied)
        decreases |data| - copied
      {
        var take := PutSome(data[copied..]);
        if take == 0 {
          break;
        }
        assert data[..copied] + data[copied..][..take] == data[..copied + take];
        copied := copied + take;
      }
      n := if copied == 0 then -1 else copied;
    }

    /** As much as fits the last chunk, or a new one if the allocator grants it. */
    method PutSome(rest: seq<byte>) returns (take: nat)
      requires Valid() && rest != [] && len + |rest| < HALF
      modifies this`chunks, this`len, this`denied
      ensures Valid() && take <= |rest| && Content(chunks) == old(Content(chunks)) + rest[..take]
      ensures denied == old(denied) + if take == 0 then 1 else 0
    {
      hide Content;
      var space := if chunks == [] then 0 else CHUNK_SIZE - |chunks[|chunks| - 1].data|;
      if space == 0 {
        var granted: bool := *;
        if !granted {
          denied := denied + 1;
          return 0;
        }
        take := Least(|rest|, CHUNK_SIZE);
        PutNew(rest[..take]);
      } else {
        take := Least(|rest|, space);
        PutTail(rest[..take]);
      }
    }

    method PutNew(more: seq<byte>)
      requires Valid() && 0 < |more| <= CHUNK_SIZE && len + |more| < HALF
      requires chunks != [] ==> |chunks[|chunks| - 1].data| == CHUNK_SIZE
      modifies this`chunks, this`len
      ensures Valid() && Content(chunks) == old(Content(chunks)) + more
    {
      ContentAppend(chunks, Chunk(more, 0));
      chunks := chunks + [Chunk(more, 0)];
      len := len + |more|;
    }

    method PutTail(more: seq<byte>)
      requires Valid() && chunks != [] && |chunks[|chunks| - 1].data| + |more| <= CHUNK_SIZE && len + |more| < HALF
      modifies this`chunks, this`len
      ensures Valid() && Content(chunks) == old(Content(chunks)) + more
    {
      ContentGrow(chunks, more);
      var n := |chunks| - 1;
      chunks := chunks[..n] + [Chunk(chunks[n].data + more, chunks[n].off)];
      len := len + |more|;
    }

    /** One step of a removal: at most the rest of the first chunk. */
    method DropSome(left: nat) returns (take: nat)
      requires Valid() && left > 0 && chunks != []
      modifies this`chunks, this`len, this`headSeq, this`head
      ensures Valid() && 0 < take <= left && take <= |old(Content(chunks))|
      ensures Content(chunks) == old(Content(chunks))[take..] && head == old(head) + take
    {
      hide Wrap, Add32, Content;
      var c := chunks[0];
      take := Least(left, |c.data| - c.off);
      AddWrap(head, take);
      DropFront(chunks, take);
      len := len - take;
      headSeq := Add32(headSeq, take);
      head := head + take;
      if c.off + take == |c.data| {
        chunks := chunks[1..];
      } else {
        chunks := [Chunk(c.data, c.off + take)] + chunks[1..];
      }
    }

    /** `tcp_sndbuf_remove`: acknowledged bytes leave at the front. */
    method Remove(count: nat)
      requires Valid()
      modifies this
      ensures Valid()
      ensures
        var n := Least(count, old(len));
        && Bytes() == old(Bytes())[n..] && head == old(head) + n
        && unacked == Minus(old(unacked), n)
    {
      if count == 0 {
        return;
      }
      var left := Least(count, len);
      unacked := unacked - Least(left, unacked);
      ghost var was, n, start := Content(chunks), left, head;
      while left != 0 && chunks != []
        invariant Valid() && 0 <= left <= n <= |was| && head == start + n - left
        invariant Content(chunks) == was[n - left..]
        invariant unacked == Minus(old(unacked), n)
        decreases left
      {
        var take := DropSome(left);
        left := left - take;
        assert was[n - left - take..][take..] == was[n - left..];
      }
    }

    /** `tcp_sndbuf_peek`: the queued bytes at `sq`, up to the end of a chunk. */
    method Peek(sq: u32, ghost p: int) returns (bytes: seq<byte>)
      requires Valid() && sq == Wrap(p) && -HALF < p - head < HALF
      ensures bytes != [] <==> head <= p < head + len
      ensures bytes != [] ==>
                && |bytes| == Rest(chunks, p - head) <= head + len - p && bytes == Bytes()[p - head..p - head + |bytes|]
    {
      SerialOrder(p, head);
      AddWrap(head, len);
      if p >= head { SerialOrder(p, head + len); }
      if Lt(sq, headSeq) || !Lt(sq, Add32(headSeq, len)) {
        return [];
      }
      bytes := PeekAt(Sub32(sq, headSeq));
    }

    /** Walk the chunks to offset `at`. */
    method PeekAt(at: nat) returns (bytes: seq<byte>)
      requires Valid() && at < len
      ensures bytes != [] && |bytes| == Rest(chunks, at) <= len - at && bytes == Bytes()[at..at + |bytes|]
    {
      ghost var all := Content(chunks);
      var skip: nat := at;
      ghost var gone: nat := 0;
      assert chunks[0..] == chunks;
      for i := 0 to |chunks|
        invariant gone + skip == at && gone <= len
        invariant AllFilled(chunks[i..]) && Content(chunks[i..]) == all[gone..]
        invariant Rest(chunks[i..], skip) == Rest(chunks, at)
      {
        var c := chunks[i];
        ContentStep(chunks, i);
        if skip < |c.data| - c.off {
          bytes := c.data[c.off + skip..];
          Inner(all, gone, c.data[c.off..], Content(chunks[i + 1..]), skip);
          return;
        }
        After(all, gone, c.data[c.off..], Content(chunks[i + 1..]));
        skip := skip - (|c.data| - c.off);
        gone := gone + |c.data| - c.off;
      }
      assert false;
    }
  }

  lemma ContentStep(q: seq<Chunk>, i: nat)
    requires i < |q| && AllFilled(q[i..])
    ensures AllFilled(q[i + 1..]) && Filled(q[i]) && Content(q[i..]) == q[i].data[q[i].off..] + Content(q[i + 1..])
    ensures forall skip: nat :: Rest(q[i..], skip) ==
                                var n := |q[i].data| - q[i].off;
                                if skip < n then n - skip else Rest(q[i + 1..], skip - n)
  {
    assert q[i..][0] == q[i] && q[i..][1..] == q[i + 1..];
  }

  lemma Inner(all: seq<byte>, gone: nat, front: seq<byte>, rest: seq<byte>, skip: nat)
    requires gone <= |all| && all[gone..] == front + rest && skip < |front|
    ensures
      var bytes := front[skip..];
      |bytes| <= |all| - gone - skip && bytes == all[gone + skip..gone + skip + |bytes|]
  {
    forall k | skip <= k < |front|
      ensures front[k] == all[gone + k]
    {
      assert all[gone..][k] == front[k];
    }
  }

  lemma After(all: seq<byte>, gone: nat, front: seq<byte>, rest: seq<byte>)
    requires gone <= |all| && all[gone..] == front + rest
    ensures gone + |front| <= |all| && all[gone + |front|..] == rest
  {
    assert all[gone..][|front|..] == rest;
  }

  function Least(a: nat, b: nat): nat { if a < b then a else b }

  lemma DropFront(q: seq<Chunk>, take: nat)
    requires q != [] && AllFilled(q) && take <= |q[0].data| - q[0].off
    ensures
      var c := q[0];
      var rest := if c.off + take == |c.data| then q[1..] else [Chunk(c.data, c.off + take)] + q[1..];
      AllFilled(rest) && Content(rest) == Content(q)[take..] && take <= |Content(q)|
  {
    hide Content;
    assert q[0..] == q;
    ContentStep(q, 0);
    DropJoin(q[0].data[q[0].off..], Content(q[1..]), take);
    if q[0].off + take < |q[0].data| { FrontChunk(q[0], take, q[1..]); }
  }

  lemma DropJoin(front: seq<byte>, tail: seq<byte>, take: nat)
    requires take <= |front|
    ensures (front + tail)[take..] == front[take..] + tail
    ensures take == |front| ==> (front + tail)[take..] == tail
  {
  }

  lemma FrontChunk(c: Chunk, take: nat, rest: seq<Chunk>)
    requires Filled(c) && c.off + take < |c.data| && AllFilled(rest)
    ensures
      var q := [Chunk(c.data, c.off + take)] + rest;
      AllFilled(q) && Content(q) == c.data[c.off..][take..] + Content(rest)
  {
    var q := [Chunk(c.data, c.off + take)] + rest;
    assert q[1..] == rest && q[0] == Chunk(c.data, c.off + take);
    assert c.data[c.off + take..] == c.data[c.off..][take..];
  }
}
