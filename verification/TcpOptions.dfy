/**
 * Writing and reading the option area of a TCP header (tcp_options.c): the encoders that
 * append into a 40-byte area a word at a time, and the parser that walks any area.
 */
module TcpOptions {
  import opened Serial
  import opened Octets
  import opened SackRanges
  import opened SackReport
  import opened OptionWire
  import opened TcpReceive
  import opened Reassembly

  /** Block `i` of a SACK option's body. */
  lemma {:induction false} BlockAt(body: seq<byte>, i: nat)
    requires |body| % 8 == 0 && 8 * i < |body|
    ensures
      && 8 * i + 8 <= |body|
      && BlocksOf(body)[i] == Block(Be32(body[8 * i..8 * i + 4]), Be32(body[8 * i + 4..8 * i + 8]))
    decreases i
  {
    if i > 0 {
      var rest := body[8..];
      BlockAt(rest, i - 1);
      assert rest[8 * (i - 1)..8 * (i - 1) + 4] == body[8 * i..8 * i + 4];
      assert rest[8 * (i - 1) + 4..8 * (i - 1) + 8] == body[8 * i + 4..8 * i + 8];
    }
  }

  /** What one option adds to what was parsed before it. */
  function Step(kind: byte, body: seq<byte>, rx: Rx, f: Flags): Parsed
    requires kind != KIND_EOL && kind != KIND_NOP && |body| <= 253
  {
    var t := Read(kind, body);
    if t.Nop? then Malformed else Note(rx, t, f)
  }

  /** The SACK case: every block must run forward; they count on a non-SYN ACK only. */
  method ParseSack(body: seq<byte>, rx: Rx, f: Flags) returns (r: Parsed)
    requires |body| <= 253
    ensures r == Step(KIND_SACK, body, rx, f)
  {
    hide Be32, Gt;
    if |body| < 8 || |body| % 8 != 0 || rx.sackSeen {
      return Malformed;
    }
    var count := |body| / 8;
    if count > MAX_BLOCKS {
      return Malformed;
    }
    ghost var blocks := BlocksOf(body);
    var sacks: seq<Block> := [];
    for i := 0 to count
      invariant Forward(blocks[..i])
      invariant sacks == if !f.syn && f.ack then blocks[..i] else []
    {
      BlockAt(body, i);
      var left, right := Be32(body[8 * i..8 * i + 4]), Be32(body[8 * i + 4..8 * i + 8]);
      if !Gt(right, left) {
        assert !Gt(blocks[i].right, blocks[i].left);
        return Malformed;
      }
      assert blocks[..i + 1] == blocks[..i] + [Block(left, right)];
      if !f.syn && f.ack {
        sacks := sacks + [Block(left, right)];
      }
    }
    assert blocks[..count] == blocks;
    return Good(rx.(sackSeen := true, sacks := sacks));
  }

  /** The switch on one option's kind. */
  method ParseOne(kind: byte, body: seq<byte>, rx: Rx, f: Flags) returns (r: Parsed)
    requires kind != KIND_EOL && kind != KIND_NOP && |body| <= 253
    ensures r == Step(kind, body, rx, f)
  {
    if kind == KIND_MSS {
      if |body| != 2 || rx.mssSeen {
        return Malformed;
      }
      var value := Be16(body[0], body[1]);
      var seen := rx.(mssSeen := true);
      return Good(if value >= MIN_MSS then seen.(mss := value) else seen);
    }
    if kind == KIND_WSCALE {
      if |body| != 1 || rx.wscalePresent || body[0] > WSCALE_MAX {
        return Malformed;
      }
      return Good(rx.(wscale := body[0], wscalePresent := true));
    }
    if kind == KIND_PERMITTED {
      if |body| != 0 || rx.permittedSeen {
        return Malformed;
      }
      return Good(rx.(permittedSeen := true, permittedPresent := f.syn));
    }
    if kind == KIND_SACK {
      r := ParseSack(body, rx, f);
      return;
    }
    if kind == KIND_STAMP {
      if |body| != 8 || rx.stampPresent {
        return Malformed;
      }
      return Good(rx.(stampPresent := true, tsval := Be32(body[..4]), tsecr := Be32(body[4..])));
    }
    return Good(rx);
  }

  /** Parses any option area a data offset can bound, reading no octet outside it. */
  method Parse(dataWords: nat, area: seq<byte>, f: Flags) returns (r: Parsed)
    requires dataWords >= 5 ==> |area| == 4 * dataWords - 20
    ensures r == if dataWords < 5 then Malformed else Scan(area, NOTHING, f)
    ensures dataWords >= 5 ==> Decodes(area, f, r)
  {
    hide Read, Note, Decodes;
    if dataWords < 5 {
      return Malformed;
    }
    Decoded(area, f);
    var rx := NOTHING;
    var at, remain := 0, |area|;
    assert area[0..] == area;
    while remain > 0
      invariant at + remain == |area| && 0 <= at && 0 <= remain
      invariant Scan(area[at..], rx, f) == Scan(area, NOTHING, f)
      decreases remain
    {
      ghost var rest := area[at..];
      var kind := area[at];
      if kind == KIND_EOL {
        break;
      }
      if kind == KIND_NOP {
        at, remain := at + 1, remain - 1;
        assert area[at..] == rest[1..];
        continue;
      }
      if remain < 2 {
        return Malformed;
      }
      var len: int := area[at + 1];
      if len < 2 || len > remain {
        return Malformed;
      }
      assert rest[2..len] == area[at + 2..at + len];
      var next := ParseOne(kind, area[at + 2..at + len], rx, f);
      if next.Malformed? {
        return Malformed;
      }
      rx := next.rx;
      at, remain := at + len, remain - len;
      assert area[at..] == rest[len..];
    }
    return Good(rx);
  }

  // ----- Encoding ----------------------------------------------------------------------

  function Zeros(n: nat): (z: seq<byte>)
    ensures |z| == n
  {
    seq(n, _ => 0)
  }

  /** Whole words needed for `n` octets. */
  function WordsFor(n: nat): nat { (n + 3) / 4 }

  /** `out` is `ts` on the wire and then nothing but end-of-list octets. */
  ghost predicate Spells(out: seq<byte>, ts: seq<Token>) {
    AllLegal(ts) && |Wire(ts)| <= |out| && out == Wire(ts) + Zeros(|out| - |Wire(ts)|)
  }

  lemma {:induction false} WireAppend(ts: seq<Token>, more: seq<Token>)
    requires AllLegal(ts) && AllLegal(more)
    ensures AllLegal(ts + more) && Wire(ts + more) == Wire(ts) + Wire(more)
    decreases |ts|
  {
    hide Encoding, Legal;
    if ts == [] {
      assert ts + more == more;
    } else {
      WireAppend(ts[1..], more);
      assert (ts + more)[1..] == ts[1..] + more;
      assert Wire(ts + more) == Encoding(ts[0]) + (Wire(ts[1..]) + Wire(more));
      assert Wire(ts) == Encoding(ts[0]) + Wire(ts[1..]);
    }
  }

  /** Options already rounded to words can be added to; the padding stays at the end. */
  lemma SpellsMore(out: seq<byte>, ts: seq<Token>, more: seq<Token>, after: seq<byte>)
    requires Spells(out, ts) && AllLegal(more) && |Wire(ts)| + |Wire(more)| <= |out|
    requires after == out[..|Wire(ts)|] + Wire(more) + out[|Wire(ts)| + |Wire(more)|..]
    ensures Spells(after, ts + more)
  {
    WireAppend(ts, more);
    assert after == Wire(ts + more) + Zeros(|after| - |Wire(ts + more)|);
  }

  /** The octets a header's data offset covers parse to what the options mean. */
  lemma SpellsMeans(out: seq<byte>, ts: seq<Token>, f: Flags)
    requires Spells(out, ts) && 4 * WordsFor(|Wire(ts)|) <= |out|
    ensures Scan(out[..4 * WordsFor(|Wire(ts)|)], NOTHING, f) == Meaning(NOTHING, ts, f)
  {
    var n := 4 * WordsFor(|Wire(ts)|);
    assert out[..n] == Wire(ts) + Zeros(n - |Wire(ts)|);
    RoundTrip(ts, Zeros(n - |Wire(ts)|), NOTHING, f);
  }

  /** The smallest scale that fits a buffer into sixteen bits, or the largest scale. */
  method ChooseScale(size: u32) returns (scale: byte)
    ensures scale <= WSCALE_MAX
    ensures size / Pow2(scale) < 0x1_0000 || scale == WSCALE_MAX
    ensures forall k: nat :: k < scale ==> size / Pow2(k) >= 0x1_0000
  {
    scale := 0;
    while scale < WSCALE_MAX && size / Pow2(scale) > 0xffff
      invariant scale <= WSCALE_MAX && forall k: nat :: k < scale ==> size / Pow2(k) >= 0x1_0000
    {
      scale := scale + 1;
    }
  }

  function Pow2(n: nat): (p: int)
    ensures p > 0
  {
    if n == 0 then 1 else 2 * Pow2(n - 1)
  }

  /** What a SYN offers, in order. */
  function SynOffer(scaling: bool, scale: byte, stamping: bool, val: u32, ecr: u32, selective: bool): (ts: seq<Token>)
    requires scale <= WSCALE_MAX
    ensures AllLegal(ts)
  {
    [Mss(DEFAULT_MSS)] + (if scaling then [Nop, Scale(scale)] else [])
    + (if stamping then [Nop, Nop, Stamp(val, ecr)] else []) + (if selective then [Permitted] else [])
  }

  /** What the peer must read from it. */
  function SynRead(scaling: bool, scale: byte, stamping: bool, val: u32, ecr: u32, selective: bool): Rx
  {
    Rx(DEFAULT_MSS, true, if scaling then scale else 0, scaling, selective, selective, false, [],
       stamping, if stamping then val else 0, if stamping then ecr else 0)
  }

  class Fragment {
    const options: array<byte>
    var words: nat
    var dataOff: byte  // the header's data offset octet

    ghost predicate Valid()
      reads this, options
    {
      options.Length == AREA && words <= 10
    }

    /** The area holds exactly `ts`, rounded up to whole words. */
    ghost predicate Holds(ts: seq<Token>)
      reads this, options
    {
      Valid() && Spells(options[..], ts) && words == WordsFor(|Wire(ts)|)
    }

    constructor ()
      ensures Valid() && fresh(options) && Holds([]) && dataOff == 0x50
    {
      options := new byte[AREA](_ => 0);
      words, dataOff := 0, 0x50;
      new;
      assert options[..] == Wire([]) + Zeros(AREA);
    }

    method Clear()
      requires Valid()
      modifies this, options
      ensures Holds([])
    {
      for i := 0 to AREA
        invariant Valid() && options[..i] == Zeros(i)
      {
        options[i] := 0;
      }
      words := 0;
      assert options[..] == Wire([]) + Zeros(AREA);
    }

    /** Appends raw octets at the current word; refuses exactly when they do not fit. */
    method Append(data: seq<byte>) returns (ok: bool)
      requires Valid()
      modifies this, options
      ensures Valid() && (ok <==> 4 * old(words) + |data| <= AREA)
      ensures !ok ==> words == old(words) && options[..] == old(options[..])
      ensures ok ==> words == WordsFor(4 * old(words) + |data|)
      ensures ok ==> options[..] == old(options[..4 * words]) + data + old(options[4 * words + |data|..])
    {
      var offset := 4 * words;
      if offset + |data| > AREA {
        return false;
      }
      for i := 0 to |data|
        invariant unchanged(this)
        invariant options[..] == old(options[..offset]) + data[..i] + old(options[offset + i..])
      {
        options[offset + i] := data[i];
      }
      words := WordsFor(offset + |data|);
      return true;
    }

    /** Appending the octets of options to a word-aligned list adds exactly them. */
    method Emit(data: seq<byte>, ghost ts: seq<Token>, ghost more: seq<Token>) returns (ok: bool)
      requires Holds(ts) && |Wire(ts)| % 4 == 0 && AllLegal(more) && data == Wire(more)
      modifies this, options
      ensures ok <==> |Wire(ts)| + |Wire(more)| <= AREA
      ensures ok ==> Holds(ts + more) && |Wire(ts + more)| == |Wire(ts)| + |Wire(more)|
      ensures !ok ==> Holds(ts)
    {
      hide Wire, AllLegal;
      ghost var was := options[..];
      ok := Append(data);
      if ok {
        SpellsMore(was, ts, more, options[..]);
        WireAppend(ts, more);
      }
    }

    /** Commits the length to the header. */
    method Finish(ghost ts: seq<Token>)
      requires Holds(ts)
      modifies this`dataOff
      ensures Holds(ts) && dataOff == (5 + words) * 16
    {
      dataOff := (5 + words) * 16;
    }

    /** Two NOPs and a timestamp: three whole words. */
    method EmitStamp(val: u32, ecr: u32, ghost ts: seq<Token>) returns (ok: bool)
      requires Holds(ts) && |Wire(ts)| % 4 == 0
      modifies this, options
      ensures ok <==> |Wire(ts)| + 12 <= AREA
      ensures ok ==>
                Holds(ts + [Nop, Nop, Stamp(val, ecr)]) && |Wire(ts + [Nop, Nop, Stamp(val, ecr)])| == |Wire(ts)| + 12
      ensures !ok ==> Holds(ts)
    {
      hide Holds;
      var data: seq<byte> := [KIND_NOP, KIND_NOP, KIND_STAMP, 10] + Bytes32(val) + Bytes32(ecr);
      StampBytes(val, ecr);
      ok := Emit(data, ts, [Nop, Nop, Stamp(val, ecr)]);
    }

    /** Offers on a SYN or SYN+ACK: they always fit, and the peer parses exactly the offer. */
    method ApplySyn(scaling: bool, scale: byte, stamping: bool, val: u32, ecr: u32, selective: bool) returns (ok: bool)
      requires Valid() && scale <= WSCALE_MAX
      modifies this, options
      ensures
        && Valid() && ok && dataOff == (5 + words) * 16
        && Holds(SynOffer(scaling, scale, stamping, val, ecr, selective))
      ensures forall ack ::
                Scan(options[..4 * words], NOTHING, Flags(true, ack)) ==
                  Good(SynRead(scaling, scale, stamping, val, ecr, selective))
    {
      hide Holds;
      Clear();
      ghost var ts: seq<Token> := [Mss(DEFAULT_MSS)];
      MssBytes();
      ok := Emit([KIND_MSS, 4, DEFAULT_MSS / 0x100, DEFAULT_MSS % 0x100], [], [Mss(DEFAULT_MSS)]);
      assert [] + [Mss(DEFAULT_MSS)] == ts;
      if scaling {
        ScaleBytes(scale);
        ok := Emit([KIND_NOP, KIND_WSCALE, 3, scale], ts, [Nop, Scale(scale)]);
        ts := ts + [Nop, Scale(scale)];
      }
      if stamping {
        ok := EmitStamp(val, ecr, ts);
        ts := ts + [Nop, Nop, Stamp(val, ecr)];
      }
      if selective {
        PermittedBytes();
        ok := Emit([KIND_PERMITTED, 2], ts, [Permitted]);
        ts := ts + [Permitted];
      }
      assert ts == SynOffer(scaling, scale, stamping, val, ecr, selective);
      Finish(ts);
      HoldsMeans(ts, Flags(true, true));
      forall ack
        ensures Scan(options[..4 * words], NOTHING, Flags(true, ack)) ==
                  Good(SynRead(scaling, scale, stamping, val, ecr, selective))
      {
        HoldsMeans(ts, Flags(true, ack));
        SynMeaning(scaling, scale, stamping, val, ecr, selective, ack);
      }
    }

    lemma HoldsMeans(ts: seq<Token>, f: Flags)
      requires Holds(ts)
      ensures Valid() && words <= 10 && options.Length == AREA
      ensures Scan(options[..4 * words], NOTHING, f) == Meaning(NOTHING, ts, f)
    {
      SpellsMeans(options[..], ts, f);
      assert options[..][..4 * words] == options[..4 * words];
    }

    /** The area is not part of the receiver. */
    ghost predicate Apart(rcv: Receiver)
      reads rcv.ofo.store, rcv.ofo.store.index
    {
      {this, options} !! {rcv, rcv.ofo, rcv.ofo.owner} + rcv.ofo.store.Repr()
    }

    /** Appends one SACK option. */
    method EmitBlocks(blocks: seq<Block>, ghost ts: seq<Token>) returns (ok: bool)
      requires Holds(ts) && |Wire(ts)| % 4 == 0 && Legal(Sack(blocks))
      modifies this, options
      ensures ok <==> |Wire(ts)| + 2 + 8 * |blocks| <= AREA
      ensures Holds(if ok then ts + [Sack(blocks)] else ts)
    {
      hide Holds, BlockBytes, Forward;
      SackBytes(blocks);
      ok := Emit([KIND_SACK, 2 + 8 * |blocks|] + BlockBytes(blocks), ts, [Sack(blocks)]);
    }

    lemma Fill(ts: seq<Token>)
      requires Holds(ts) && |Wire(ts)| % 4 == 0
      ensures Valid() && 4 * words == |Wire(ts)|
    {
      hide Wire;
    }

    /** Appends the blocks of the next report, as many as still fit, unless there are none. */
    method EmitSack(rcv: Receiver, ack: bool, ghost ts: seq<Token>)
      returns (ok: bool, blocks: seq<Block>, ghost spans: seq<Span>, ghost norm: seq<Block>)
      requires Holds(ts) && |Wire(ts)| % 4 == 0 && |Wire(ts)| <= 12
      requires Apart(rcv) && rcv.Valid() && Backed(rcv.notes, rcv.dupAt, rcv.ofo.store.held, rcv.ofo.nxt)
      modifies this, options, rcv`notes
      ensures ok && rcv.Valid() && Backed(rcv.notes, rcv.dupAt, rcv.ofo.store.held, rcv.ofo.nxt)
      ensures blocks != [] ==> ack && Legal(Sack(blocks))
      ensures Holds(ts + if blocks == [] then [] else [Sack(blocks)])
      ensures if ack then rcv.Answers(blocks, norm, old(rcv.notes), if |Wire(ts)| <= 4 then 4 else 3)
              else blocks == [] && rcv.notes == old(rcv.notes)
      ensures Honest(blocks, spans, rcv.ofo.store.held, rcv.ofo.nxt, old(rcv.notes).duplicate, rcv.dupAt)
    {
      hide Holds, Honest, Backed, Receiver.Valid, Receiver.Answers, Wire, Forward;
      Fill(ts);
      assert ts + [] == ts;
      if !ack || 4 * words + 2 > AREA {
        HonestNone(rcv.ofo.store.held, rcv.ofo.nxt, rcv.notes.duplicate, rcv.dupAt);
        return true, [], [], [];
      }
      var capacity := (AREA - 4 * words - 2) / 8;
      if capacity > MAX_BLOCKS {
        capacity := MAX_BLOCKS;
      }
      blocks, spans, norm := rcv.MakeReport(capacity);
      HonestForward(blocks, spans, rcv.ofo.store.held, rcv.ofo.nxt, old(rcv.notes).duplicate, rcv.dupAt);
      if blocks == [] {
        return true, blocks, spans, norm;
      }
      ok := EmitBlocks(blocks, ts);
    }

    /** A negotiated timestamp and the receiver's report: they always fit, the peer parses
        exactly them, and every block it parses is one the receiver can stand by. */
    method ApplyEstablished(rcv: Receiver, ack: bool, stamping: bool, val: u32, ecr: u32)
      returns (ok: bool, blocks: seq<Block>, ghost spans: seq<Span>, ghost norm: seq<Block>)
      requires Valid() && Apart(rcv) && rcv.Valid() && Backed(rcv.notes, rcv.dupAt, rcv.ofo.store.held, rcv.ofo.nxt)
      modifies this, options, rcv`notes
      ensures
        && ok && Valid() && dataOff == (5 + words) * 16 && rcv.Valid()
        && Backed(rcv.notes, rcv.dupAt, rcv.ofo.store.held, rcv.ofo.nxt)
      ensures (blocks != [] ==> ack && Legal(Sack(blocks))) && Holds(Carried(stamping, val, ecr, blocks))
      ensures Honest(blocks, spans, rcv.ofo.store.held, rcv.ofo.nxt, old(rcv.notes).duplicate, rcv.dupAt)
      ensures if ack then rcv.Answers(blocks, norm, old(rcv.notes), if stamping then 3 else 4)
              else blocks == [] && rcv.notes == old(rcv.notes)
      ensures Scan(options[..4 * words], NOTHING, Flags(false, ack))
              == Good(NOTHING.(stampPresent := stamping,
                               tsval := if stamping then val else 0, tsecr := if stamping then ecr else 0,
                               sackSeen := blocks != [], sacks := blocks))
    {
      hide Holds, Honest, Backed, Receiver.Valid, Receiver.Answers, Wire, Meaning, Scan, Legal;
      Clear();
      MssBytes();
      ghost var ts: seq<Token> := [];
      if stamping {
        ok := EmitStamp(val, ecr, ts);
        ts := [Nop, Nop, Stamp(val, ecr)];
        assert [] + ts == ts;
      }
      ok, blocks, spans, norm := EmitSack(rcv, ack, ts);
      Finish(Carried(stamping, val, ecr, blocks));
      HoldsMeans(Carried(stamping, val, ecr, blocks), Flags(false, ack));
      CarriedMeaning(stamping, val, ecr, blocks, Flags(false, ack));
    }
  }

  /** What an established segment carries. */
  function Carried(stamping: bool, val: u32, ecr: u32, blocks: seq<Block>): (ts: seq<Token>)
    requires blocks != [] ==> Legal(Sack(blocks))
    ensures AllLegal(ts)
  {
    (if stamping then [Nop, Nop, Stamp(val, ecr)] else []) + (if blocks == [] then [] else [Sack(blocks)])
  }

  lemma MeansOne(rx: Rx, t: Token, f: Flags)
    ensures Meaning(rx, [t], f) == Note(rx, t, f)
  {
    assert [t][1..] == [];
  }

  lemma MeansScale(rx: Rx, scale: byte, f: Flags)
    ensures Meaning(rx, [Nop, Scale(scale)], f) == Note(rx, Scale(scale), f)
  {
    assert [Nop, Scale(scale)] == [Nop] + [Scale(scale)];
    MeansOne(rx, Nop, f);
    MeaningAppend(rx, [Nop], [Scale(scale)], f);
    MeansOne(rx, Scale(scale), f);
  }

  lemma MeansStamp(rx: Rx, val: u32, ecr: u32, f: Flags)
    ensures Meaning(rx, [Nop, Nop, Stamp(val, ecr)], f) == Note(rx, Stamp(val, ecr), f)
  {
    assert [Nop, Nop, Stamp(val, ecr)] == [Nop] + ([Nop] + [Stamp(val, ecr)]);
    MeansOne(rx, Nop, f);
    MeaningAppend(rx, [Nop], [Stamp(val, ecr)], f);
    MeaningAppend(rx, [Nop], [Nop] + [Stamp(val, ecr)], f);
    MeansOne(rx, Stamp(val, ecr), f);
  }

  lemma SynMeaning(scaling: bool, scale: byte, stamping: bool, val: u32, ecr: u32, selective: bool, ack: bool)
    requires scale <= WSCALE_MAX
    ensures Meaning(NOTHING, SynOffer(scaling, scale, stamping, val, ecr, selective), Flags(true, ack))
            == Good(SynRead(scaling, scale, stamping, val, ecr, selective))
  {
    hide Meaning;
    var f := Flags(true, ack);
    var a: seq<Token> := [Mss(DEFAULT_MSS)];
    var b := if scaling then [Nop, Scale(scale)] else [];
    var c := if stamping then [Nop, Nop, Stamp(val, ecr)] else [];
    var d := if selective then [Permitted] else [];
    MeansOne(NOTHING, Mss(DEFAULT_MSS), f);
    var rx := Note(NOTHING, Mss(DEFAULT_MSS), f).rx;
    MeaningAppend(NOTHING, a, b, f);
    MeansScale(rx, scale, f);
    MeansNone(rx, f);
    rx := if scaling then Note(rx, Scale(scale), f).rx else rx;
    MeaningAppend(NOTHING, a + b, c, f);
    MeansStamp(rx, val, ecr, f);
    MeansNone(rx, f);
    rx := if stamping then Note(rx, Stamp(val, ecr), f).rx else rx;
    MeaningAppend(NOTHING, a + b + c, d, f);
    MeansOne(rx, Permitted, f);
    MeansNone(rx, f);
  }

  lemma MeansNone(rx: Rx, f: Flags)
    ensures Meaning(rx, [], f) == Good(rx)
  {
  }

  lemma CarriedMeaning(stamping: bool, val: u32, ecr: u32, blocks: seq<Block>, f: Flags)
    requires blocks != [] ==> Legal(Sack(blocks))
    ensures Meaning(NOTHING, Carried(stamping, val, ecr, blocks), f)
            == Good(NOTHING.(stampPresent := stamping,
                             tsval := if stamping then val else 0, tsecr := if stamping then ecr else 0,
                             sackSeen := blocks != [], sacks := if !f.syn && f.ack then blocks else []))
  {
    hide Meaning;
    var a := if stamping then [Nop, Nop, Stamp(val, ecr)] else [];
    MeansNone(NOTHING, f);
    MeansStamp(NOTHING, val, ecr, f);
    var rx := if stamping then Note(NOTHING, Stamp(val, ecr), f).rx else NOTHING;
    MeansNone(rx, f);
    MeansOne(rx, Sack(blocks), f);
    MeaningAppend(NOTHING, a, if blocks == [] then [] else [Sack(blocks)], f);
  }

  lemma SackBytes(blocks: seq<Block>)
    requires Legal(Sack(blocks))
    ensures Wire([Sack(blocks)]) == [KIND_SACK, 2 + 8 * |blocks|] + BlockBytes(blocks)
  {
    hide BlockBytes, Legal, Wire;
    WireOne(Sack(blocks));
    SackSize(blocks);
  }

  lemma SackSize(blocks: seq<Block>)
    ensures Body(Sack(blocks)) == BlockBytes(blocks) && |BlockBytes(blocks)| + 2 == 2 + 8 * |blocks|
  {
    hide BlockBytes;
  }

  lemma WireOne(t: Token)
    requires Legal(t)
    ensures Wire([t]) == Encoding(t)
  {
    hide Encoding;
    assert [t][1..] == [] && Wire([]) == [];
  }

  /** Honest blocks run forward. */
  lemma HonestForward(out: seq<Block>, spans: seq<Span>, held: seq<Piece>, nxt: int, duplicate: bool, dupAt: Span)
    requires Honest(out, spans, held, nxt, duplicate, dupAt)
    ensures Forward(out)
  {
    forall i | 0 <= i < |out| ensures Gt(out[i].right, out[i].left) {
      assert CodeAt(out[i], spans[i]);
      SubWrap(spans[i].right, spans[i].left);
      SmallWrap(spans[i].right - spans[i].left);
    }
  }

  lemma StampBytes(val: u32, ecr: u32)
    ensures Wire([Nop, Nop, Stamp(val, ecr)]) == [KIND_NOP, KIND_NOP, KIND_STAMP, 10] + Bytes32(val) + Bytes32(ecr)
  {
    hide Bytes32, Wire;
    assert [Nop, Nop, Stamp(val, ecr)] == [Nop] + ([Nop] + [Stamp(val, ecr)]);
    WireOne(Nop);
    WireOne(Stamp(val, ecr));
    WireAppend([Nop], [Stamp(val, ecr)]);
    WireAppend([Nop], [Nop] + [Stamp(val, ecr)]);
    assert Encoding(Stamp(val, ecr)) == [KIND_STAMP, 10] + Bytes32(val) + Bytes32(ecr);
  }

  lemma MssBytes()
    ensures Wire([]) == [] && Wire([Mss(DEFAULT_MSS)]) == [KIND_MSS, 4, DEFAULT_MSS / 0x100, DEFAULT_MSS % 0x100]
  {
    WireOne(Mss(DEFAULT_MSS));
  }

  lemma ScaleBytes(scale: byte)
    requires scale <= WSCALE_MAX
    ensures Wire([Nop, Scale(scale)]) == [KIND_NOP, KIND_WSCALE, 3, scale]
  {
    hide Wire;
    assert [Nop, Scale(scale)] == [Nop] + [Scale(scale)];
    WireOne(Nop);
    WireOne(Scale(scale));
    WireAppend([Nop], [Scale(scale)]);
  }

  lemma PermittedBytes()
    ensures Wire([Permitted]) == [KIND_PERMITTED, 2]
  {
    WireOne(Permitted);
  }
}
