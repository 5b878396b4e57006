/**
 * TCP option areas as values (tcp_options.c): the options a header can carry, their
 * bytes, and what a parser must report. `Scan` reads bytes; `Wire` writes options.
 */
module OptionWire {
  import opened Serial
  import opened SackRanges

  const KIND_EOL := 0
  const KIND_NOP := 1
  const KIND_MSS := 2
  const KIND_WSCALE := 3
  const KIND_PERMITTED := 4
  const KIND_SACK := 5
  const KIND_STAMP := 8
  const MIN_MSS := 536
  const DEFAULT_MSS := 1460
  const WSCALE_MAX := 14
  const MAX_BLOCKS := 4
  const AREA := 40

  type u16 = x: int | 0 <= x < 0x1_0000

  /** One option as a sender means it. */
  datatype Token =
    | Nop
    | Mss(size: u16)
    | Scale(shift: byte)
    | Permitted
    | Sack(blocks: seq<Block>)
    | Stamp(val: u32, ecr: u32)
    | Other(kind: byte, body: seq<byte>)

  /** What is parsed so far; a missing option keeps its default. */
  datatype Rx = Rx(mss: u16, mssSeen: bool, wscale: byte, wscalePresent: bool,
                   permittedSeen: bool, permittedPresent: bool, sackSeen: bool, sacks: seq<Block>,
                   stampPresent: bool, tsval: u32, tsecr: u32)

  const NOTHING := Rx(DEFAULT_MSS, false, 0, false, false, false, false, [], false, 0, 0)

  datatype Parsed = Malformed | Good(rx: Rx)

  /** The two header flags that decide which options count. */
  datatype Flags = Flags(syn: bool, ack: bool)

  function Be16(hi: byte, lo: byte): u16 { hi * 0x100 + lo }

  /** Four octets, most significant first. */
  function Join(a: int, b: int, c: int, d: int): int {
    ((a * 0x100 + b) * 0x100 + c) * 0x100 + d
  }

  function Be32(b: seq<byte>): (v: u32)
    requires |b| == 4
  {
    Join(b[0], b[1], b[2], b[3])
  }

  function Bytes32(v: u32): (b: seq<byte>)
    ensures |b| == 4
  {
    [v / 0x100 / 0x100 / 0x100, v / 0x100 / 0x100 % 0x100, v / 0x100 % 0x100, v % 0x100]
  }

  lemma Be32RoundTrip(v: u32)
    ensures Be32(Bytes32(v)) == v
  {
    assert v / 0x100 / 0x100 == v / 0x100 / 0x100 / 0x100 * 0x100 + v / 0x100 / 0x100 % 0x100;
    assert v / 0x100 == v / 0x100 / 0x100 * 0x100 + v / 0x100 % 0x100;
  }

  lemma Bytes32RoundTrip(b: seq<byte>)
    requires |b| == 4
    ensures Bytes32(Be32(b)) == b
  {
    var v := Be32(b);
    assert v / 0x100 == Join(0, b[0], b[1], b[2]);
    assert v / 0x100 / 0x100 == Join(0, 0, b[0], b[1]);
    assert Bytes32(v) == b;
  }

  function BlockBytes(blocks: seq<Block>): (b: seq<byte>)
    ensures |b| == 8 * |blocks|
  {
    if blocks == [] then [] else Bytes32(blocks[0].left) + Bytes32(blocks[0].right) + BlockBytes(blocks[1..])
  }

  function BlocksOf(b: seq<byte>): (blocks: seq<Block>)
    requires |b| % 8 == 0
    ensures 8 * |blocks| == |b|
  {
    if b == [] then [] else [Block(Be32(b[..4]), Be32(b[4..8]))] + BlocksOf(b[8..])
  }

  lemma {:induction false} BlocksRoundTrip(blocks: seq<Block>)
    ensures BlocksOf(BlockBytes(blocks)) == blocks
  {
    if blocks != [] {
      var b := BlockBytes(blocks);
      assert b[..4] == Bytes32(blocks[0].left);
      assert b[4..8] == Bytes32(blocks[0].right);
      assert b[8..] == BlockBytes(blocks[1..]);
      Be32RoundTrip(blocks[0].left);
      Be32RoundTrip(blocks[0].right);
      BlocksRoundTrip(blocks[1..]);
    }
  }

  lemma {:induction false} BlockBytesRoundTrip(b: seq<byte>)
    requires |b| % 8 == 0
    ensures BlockBytes(BlocksOf(b)) == b
  {
    if b != [] {
      Bytes32RoundTrip(b[..4]);
      Bytes32RoundTrip(b[4..8]);
      BlockBytesRoundTrip(b[8..]);
      var blocks := BlocksOf(b);
      assert blocks[1..] == BlocksOf(b[8..]);
      assert b == b[..4] + b[4..8] + b[8..];
    }
  }

  /** A block list a parser accepts: each right edge serially after its left. */
  predicate Forward(blocks: seq<Block>) {
    forall i | 0 <= i < |blocks| :: Gt(blocks[i].right, blocks[i].left)
  }

  /** The options with a wire form a parser accepts. */
  predicate Legal(t: Token) {
    match t
    case Scale(shift) => shift <= WSCALE_MAX
    case Sack(blocks) => 1 <= |blocks| <= MAX_BLOCKS && Forward(blocks)
    case Other(kind, body) =>
      kind !in {KIND_EOL, KIND_NOP, KIND_MSS, KIND_WSCALE, KIND_PERMITTED, KIND_SACK, KIND_STAMP} && |body| <= 253
    case _ => true
  }

  function Kind(t: Token): byte
    requires !t.Nop?
  {
    match t
    case Mss(_) => KIND_MSS
    case Scale(_) => KIND_WSCALE
    case Permitted => KIND_PERMITTED
    case Sack(_) => KIND_SACK
    case Stamp(_, _) => KIND_STAMP
    case Other(kind, _) => kind
  }

  function Body(t: Token): seq<byte>
    requires !t.Nop?
  {
    match t
    case Mss(size) => [size / 0x100, size % 0x100]
    case Scale(shift) => [shift]
    case Permitted => []
    case Sack(blocks) => BlockBytes(blocks)
    case Stamp(val, ecr) => Bytes32(val) + Bytes32(ecr)
    case Other(_, body) => body
  }

  /** The bytes of one option. */
  function Encoding(t: Token): (b: seq<byte>)
    requires Legal(t)
    ensures 0 < |b|
  {
    if t.Nop? then [KIND_NOP] else [Kind(t), |Body(t)| + 2] + Body(t)
  }

  predicate AllLegal(ts: seq<Token>) {
    forall i | 0 <= i < |ts| :: Legal(ts[i])
  }

  /** The bytes of a list of options. */
  function Wire(ts: seq<Token>): seq<byte>
    requires AllLegal(ts)
  {
    if ts == [] then [] else Encoding(ts[0]) + Wire(ts[1..])
  }

  /** The option with this kind and body, if a parser accepts one. */
  function Read(kind: byte, body: seq<byte>): (t: Token)
    requires kind != KIND_EOL && kind != KIND_NOP && |body| <= 253
    ensures !t.Nop? ==> Legal(t) && Kind(t) == kind
  {
    if kind == KIND_MSS then if |body| == 2 then Mss(Be16(body[0], body[1])) else Nop
    else if kind == KIND_WSCALE then if |body| == 1 && body[0] <= WSCALE_MAX then Scale(body[0]) else Nop
    else if kind == KIND_PERMITTED then if body == [] then Permitted else Nop
    else if kind == KIND_STAMP then if |body| == 8 then Stamp(Be32(body[..4]), Be32(body[4..])) else Nop
    else if kind == KIND_SACK then
      if |body| % 8 == 0 && 8 <= |body| <= 32 && Forward(BlocksOf(body)) then Sack(BlocksOf(body)) else Nop
    else Other(kind, body)
  }

  /** Recording one option; a second one of the same kind is malformed. */
  function Note(rx: Rx, t: Token, f: Flags): Parsed {
    match t
    case Mss(size) => if rx.mssSeen then Malformed
      else Good(rx.(mssSeen := true, mss := if size >= MIN_MSS then size else rx.mss))
    case Scale(shift) => if rx.wscalePresent then Malformed else Good(rx.(wscale := shift, wscalePresent := true))
    case Permitted => if rx.permittedSeen then Malformed
      else Good(rx.(permittedSeen := true, permittedPresent := f.syn))
    case Sack(blocks) => if rx.sackSeen then Malformed
      else Good(rx.(sackSeen := true, sacks := if !f.syn && f.ack then blocks else []))
    case Stamp(val, ecr) => if rx.stampPresent then Malformed
      else Good(rx.(stampPresent := true, tsval := val, tsecr := ecr))
    case _ => Good(rx)
  }

  /** What a list of options means. */
  function Meaning(rx: Rx, ts: seq<Token>, f: Flags): Parsed
    decreases |ts|
  {
    if ts == [] then Good(rx)
    else match Note(rx, ts[0], f)
      case Malformed => Malformed
      case Good(next) => Meaning(next, ts[1..], f)
  }

  lemma {:induction false} MeaningAppend(rx: Rx, ts: seq<Token>, more: seq<Token>, f: Flags)
    ensures
      Meaning(rx, ts + more, f) ==
      match Meaning(rx, ts, f)
      case Malformed => Malformed
      case Good(next) => Meaning(next, more, f)
    decreases |ts|
  {
    if ts == [] {
      assert ts + more == more;
    } else {
      assert (ts + more)[1..] == ts[1..] + more;
      if Note(rx, ts[0], f).Good? { MeaningAppend(Note(rx, ts[0], f).rx, ts[1..], more, f); }
    }
  }

  /** Two options that a header may carry only once, of the same kind. */
  predicate Alike(t: Token, u: Token) {
    || (t.Mss? && u.Mss?) || (t.Scale? && u.Scale?) || (t.Permitted? && u.Permitted?)
    || (t.Sack? && u.Sack?) || (t.Stamp? && u.Stamp?)
  }

  ghost predicate Repeats(ts: seq<Token>) {
    exists i, j :: 0 <= i < j < |ts| && Alike(ts[i], ts[j])
  }

  /** What is reported of options that do not repeat.  The segment size is the peer's if it is
      allowed, and the default otherwise; a window scale and timestamps are those offered;
      SACK-permitted counts on a SYN, and SACK blocks on an ACK that is none. */
  ghost predicate Tells(rx: Rx, ts: seq<Token>, f: Flags) {
    && rx.mss == Size(ts)
    && ScaleTold(rx, ts) && StampTold(rx, ts) && (rx.permittedPresent <==> f.syn && Permitted in ts)
    && rx.sacks == (if f.ack && !f.syn then Blocks(ts) else [])
  }

  ghost predicate ScaleTold(rx: Rx, ts: seq<Token>) {
    && (forall i :: 0 <= i < |ts| && ts[i].Scale? ==> rx.wscalePresent && rx.wscale == ts[i].shift)
    && (rx.wscalePresent ==> exists i :: 0 <= i < |ts| && ts[i].Scale?) && (!rx.wscalePresent ==> rx.wscale == 0)
  }

  ghost predicate StampTold(rx: Rx, ts: seq<Token>) {
    && (forall i :: 0 <= i < |ts| && ts[i].Stamp? ==>
          rx.stampPresent && rx.tsval == ts[i].val && rx.tsecr == ts[i].ecr)
    && (rx.stampPresent ==> exists i :: 0 <= i < |ts| && ts[i].Stamp?)
    && (!rx.stampPresent ==> rx.tsval == 0 && rx.tsecr == 0)
  }

  /** The last segment size that is allowed, or the default. */
  function Size(ts: seq<Token>): u16 {
    if ts == [] then 1460
    else
      var t := ts[|ts| - 1];
      if t.Mss? && t.size >= 536 then t.size else Size(ts[..|ts| - 1])
  }

  /** The blocks of the last SACK option. */
  function Blocks(ts: seq<Token>): seq<Block> {
    if ts == [] then []
    else
      var t := ts[|ts| - 1];
      if t.Sack? then t.blocks else Blocks(ts[..|ts| - 1])
  }

  /** Which kinds a parser has seen. */
  ghost predicate Seen(rx: Rx, ts: seq<Token>) {
    && (rx.mssSeen <==> exists i :: 0 <= i < |ts| && ts[i].Mss?)
    && (rx.wscalePresent <==> exists i :: 0 <= i < |ts| && ts[i].Scale?)
    && (rx.permittedSeen <==> Permitted in ts)
    && (rx.sackSeen <==> exists i :: 0 <= i < |ts| && ts[i].Sack?)
    && (rx.stampPresent <==> exists i :: 0 <= i < |ts| && ts[i].Stamp?)
  }

  /** The meaning of a list of options: malformed exactly if one repeats that must not. */
  lemma {:induction false} Meant(ts: seq<Token>, f: Flags)
    ensures Meaning(NOTHING, ts, f).Malformed? <==> Repeats(ts)
    ensures Meaning(NOTHING, ts, f).Good? ==>
              Tells(Meaning(NOTHING, ts, f).rx, ts, f) && Seen(Meaning(NOTHING, ts, f).rx, ts)
    decreases |ts|
  {
    if ts != [] {
      var n := |ts| - 1;
      var less, t := ts[..n], ts[n];
      Meant(less, f);
      assert ts == less + [t];
      MeaningAppend(NOTHING, less, [t], f);
      Repeating(less, t);
      if !Repeats(less) {
        var rx := Meaning(NOTHING, less, f).rx;
        OneMeant(rx, t, f);
        SeenMore(rx, less, t, f);
        if Note(rx, t, f).Good? { TellsMore(rx, less, t, f); }
      }
    }
  }

  lemma OneMeant(rx: Rx, t: Token, f: Flags)
    ensures Meaning(rx, [t], f) == Note(rx, t, f)
  {
  }

  lemma Repeating(less: seq<Token>, t: Token)
    ensures Repeats(less + [t]) <==> Repeats(less) || exists i :: 0 <= i < |less| && Alike(less[i], t)
  {
    var ts := less + [t];
    assert forall i :: 0 <= i < |less| ==> ts[i] == less[i];
    if Repeats(less) {
      var i, j :| 0 <= i < j < |less| && Alike(less[i], less[j]);
      assert Alike(ts[i], ts[j]);
    }
    if i :| 0 <= i < |less| && Alike(less[i], t) { assert Alike(ts[i], ts[|less|]); }
  }

  lemma SeenMore(rx: Rx, less: seq<Token>, t: Token, f: Flags)
    requires Seen(rx, less)
    ensures Note(rx, t, f).Malformed? <==> exists i :: 0 <= i < |less| && Alike(less[i], t)
    ensures Note(rx, t, f).Good? ==> Seen(Note(rx, t, f).rx, less + [t])
  {
    var ts := less + [t];
    assert ts[|less|] == t && forall i :: 0 <= i < |less| ==> ts[i] == less[i];
    if t.Permitted? && Permitted in less { assert exists i :: 0 <= i < |less| && less[i] == Permitted; }
  }

  lemma ScaleMore(rx: Rx, less: seq<Token>, t: Token, f: Flags)
    requires ScaleTold(rx, less) && Note(rx, t, f).Good?
    ensures ScaleTold(Note(rx, t, f).rx, less + [t])
  {
    var ts := less + [t];
    assert ts[|less|] == t && forall i :: 0 <= i < |less| ==> ts[i] == less[i];
  }

  lemma StampMore(rx: Rx, less: seq<Token>, t: Token, f: Flags)
    requires StampTold(rx, less) && Note(rx, t, f).Good?
    ensures StampTold(Note(rx, t, f).rx, less + [t])
  {
    var ts := less + [t];
    assert ts[|less|] == t && forall i :: 0 <= i < |less| ==> ts[i] == less[i];
  }

  lemma TellsMore(rx: Rx, less: seq<Token>, t: Token, f: Flags)
    requires Tells(rx, less, f) && Seen(rx, less) && Note(rx, t, f).Good?
    ensures Tells(Note(rx, t, f).rx, less + [t], f)
  {
    hide ScaleTold, StampTold;
    ScaleMore(rx, less, t, f);
    StampMore(rx, less, t, f);
    var ts := less + [t];
    assert ts[|less|] == t && ts[..|less|] == less && (Permitted in ts <==> Permitted in less || t == Permitted);
  }

  /** What a parser reports of a byte area. */
  function Scan(b: seq<byte>, rx: Rx, f: Flags): Parsed
    decreases |b|
  {
    if b == [] || b[0] == KIND_EOL then Good(rx)
    else if b[0] == KIND_NOP then Scan(b[1..], rx, f)
    else if |b| < 2 || b[1] < 2 || b[1] > |b| then Malformed
    else
      var t := Read(b[0], b[2..b[1]]);
      if t.Nop? then Malformed
      else match Note(rx, t, f)
        case Malformed => Malformed
        case Good(next) => Scan(b[b[1]..], next, f)
  }

  /** Reading an option's bytes back gives the option. */
  lemma ReadBack(t: Token)
    requires Legal(t) && !t.Nop?
    ensures |Body(t)| <= 253 && Read(Kind(t), Body(t)) == t
  {
    hide Bytes32, Be32, BlockBytes, BlocksOf, Forward;
    match t
    case Stamp(val, ecr) =>
      Be32RoundTrip(val);
      Be32RoundTrip(ecr);
      assert Body(t)[..4] == Bytes32(val) && Body(t)[4..] == Bytes32(ecr);
    case Sack(blocks) => BlocksRoundTrip(blocks);
    case _ =>
  }

  /** Writing what was read gives the bytes. */
  lemma WriteBack(kind: byte, body: seq<byte>)
    requires kind != KIND_EOL && kind != KIND_NOP && |body| <= 253 && !Read(kind, body).Nop?
    ensures Body(Read(kind, body)) == body
  {
    if kind == KIND_SACK {
      BlockBytesRoundTrip(body);
    } else if kind == KIND_STAMP {
      Bytes32RoundTrip(body[..4]);
      Bytes32RoundTrip(body[4..]);
      assert body == body[..4] + body[4..];
    }
  }

  /** Nothing follows, or an end-of-list octet does. */
  predicate Ends(tail: seq<byte>) {
    tail == [] || tail[0] == KIND_EOL
  }

  /** The area is the wire form of these options, and what follows the end of the list. */
  ghost predicate Spelt(b: seq<byte>, ts: seq<Token>, tail: seq<byte>) {
    AllLegal(ts) && Ends(tail) && b == Wire(ts) + tail
  }

  /** A report of a byte area is right: it is the wire form of options that do not repeat, and
      the report tells them; an area that is not such a form is malformed. */
  ghost predicate Decodes(b: seq<byte>, f: Flags, r: Parsed) {
    && (r.Good? ==> exists ts, tail :: Spelt(b, ts, tail))
    && forall ts, tail :: Spelt(b, ts, tail) ==>
         if Repeats(ts) then r.Malformed? else r.Good? && Tells(r.rx, ts, f)
  }

  /** The parser's report of any area is right. */
  lemma Decoded(b: seq<byte>, f: Flags)
    ensures Decodes(b, f, Scan(b, NOTHING, f))
  {
    hide Scan, Meaning, Repeats, Tells, Wire, AllLegal;
    var r := Scan(b, NOTHING, f);
    if r.Good? {
      var ts, tail := Accepted(b, NOTHING, f);
      assert Spelt(b, ts, tail);
    }
    forall ts, tail | Spelt(b, ts, tail)
      ensures if Repeats(ts) then r.Malformed? else r.Good? && Tells(r.rx, ts, f)
    {
      RoundTrip(ts, tail, NOTHING, f);
      Meant(ts, f);
    }
  }

  /** A peer's segment size of 1400, as it stands in a SYN. */
  lemma Sample()
    ensures Scan([2, 4, 0x05, 0x78], NOTHING, Flags(true, false)) == Good(NOTHING.(mss := 1400, mssSeen := true))
  {
    var b: seq<byte> := [2, 4, 0x05, 0x78];
    assert b[2..b[1]] == [0x05, 0x78] && b[b[1]..] == [];
  }

  /** One encoded option in front of anything is read as that option. */
  lemma ScanOne(t: Token, rest: seq<byte>, rx: Rx, f: Flags)
    requires Legal(t)
    ensures
      Scan(Encoding(t) + rest, rx, f) ==
      match Note(rx, t, f) case Malformed => Malformed case Good(next) => Scan(rest, next, f)
  {
    var b := Encoding(t) + rest;
    if t.Nop? {
      assert b[1..] == rest;
    } else {
      hide Read, Note, Kind, Body;
      ReadBack(t);
      assert b[b[1]..] == rest && b[2..b[1]] == Body(t);
    }
  }

  /** Parsing what was encoded returns what was meant, whatever follows the end of the list. */
  lemma {:induction false} RoundTrip(ts: seq<Token>, tail: seq<byte>, rx: Rx, f: Flags)
    requires AllLegal(ts) && Ends(tail)
    ensures Scan(Wire(ts) + tail, rx, f) == Meaning(rx, ts, f)
    decreases |ts|
  {
    if ts == [] {
      assert Wire(ts) + tail == tail;
    } else {
      hide Note, Encoding, Scan;
      var t, rest := ts[0], Wire(ts[1..]) + tail;
      assert Wire(ts) + tail == Encoding(t) + rest;
      ScanOne(t, rest, rx, f);
      if Note(rx, t, f).Good? {
        RoundTrip(ts[1..], tail, Note(rx, t, f).rx, f);
      }
    }
  }

  lemma Prepend(t: Token, more: seq<Token>, tail: seq<byte>, rx: Rx, f: Flags)
    requires Legal(t) && AllLegal(more) && Note(rx, t, f).Good?
    ensures AllLegal([t] + more) && Wire([t] + more) + tail == Encoding(t) + (Wire(more) + tail)
    ensures Meaning(rx, [t] + more, f) == Meaning(Note(rx, t, f).rx, more, f)
  {
    var ts := [t] + more;
    assert ts[1..] == more && ts[0] == t;
  }

  /** The first option of an area that parses. */
  lemma Front(b: seq<byte>)
    requires 2 <= |b| && b[0] != KIND_EOL && b[0] != KIND_NOP && 2 <= b[1] <= |b| && !Read(b[0], b[2..b[1]]).Nop?
    ensures b == Encoding(Read(b[0], b[2..b[1]])) + b[b[1]..]
  {
    WriteBack(b[0], b[2..b[1]]);
    assert b == [b[0], b[1]] + b[2..b[1]] + b[b[1]..];
  }

  /** Whatever parses is the wire form of a list of options with that meaning. */
  lemma {:induction false} Accepted(b: seq<byte>, rx: Rx, f: Flags) returns (ts: seq<Token>, tail: seq<byte>)
    requires Scan(b, rx, f).Good?
    ensures AllLegal(ts) && Ends(tail) && b == Wire(ts) + tail && Meaning(rx, ts, f) == Scan(b, rx, f)
    decreases |b|
  {
    hide Note, Read, Encoding;
    if b == [] || b[0] == KIND_EOL {
      ts, tail := [], b;
      assert Wire(ts) + tail == b;
    } else {
      var t, size := Nop, 1;
      if b[0] == KIND_NOP {
        NopBytes(rx, f);
        assert b == [KIND_NOP as byte] + b[1..];
      } else {
        t, size := Read(b[0], b[2..b[1]]), b[1] as int;
        Front(b);
      }
      var more;
      more, tail := Accepted(b[size..], Note(rx, t, f).rx, f);
      ts := [t] + more;
      Prepend(t, more, tail, rx, f);
    }
  }

  lemma NopBytes(rx: Rx, f: Flags)
    ensures Encoding(Nop) == [KIND_NOP] && Note(rx, Nop, f) == Good(rx)
  {
  }
}
