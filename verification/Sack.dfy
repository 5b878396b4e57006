/** Sender SACK scoreboard, NextSeg and recovery episodes (pro-stack/tcp_sack.c). */
module Sack {
  import opened Serial
  import opened Octets
  import opened SackRanges
  import opened SackLoss

  const MAX_RANGES := 128
  const MAX_BLOCKS := 4
  const MAX_FLIGHT := 0x1000_0000  // far above any send buffer

  datatype Mode = Normal | SackRecovery | RtoRecovery | NewReno

  datatype Kind = Nothing | Retransmit | NewData

  /** A chosen but uncommitted transmission. */
  datatype Candidate = Candidate(kind: Kind, rule: nat, rescue: bool, sq: u32, end: u32)

  const NONE := Candidate(Nothing, 0, false, 0, 0)

  /** Where the left edge of a block lands after clipping to [u, fe). */
  function ClipLeft(b: Block, u: int): int {
    if Lt(b.left, Wrap(u)) then u else u + Sub32(b.left, Wrap(u))
  }

  function ClipRight(b: Block, fe: int): int {
    if Lt(Wrap(fe), b.right) then fe else fe - Sub32(Wrap(fe), b.right)
  }

  /** The edges did not pass each other by half the sequence space. */
  predicate Sane(b: Block, u: int, fe: int) {
    ClipLeft(b, u) - ClipRight(b, fe) < HALF
  }

  /** Octet `p` of the flight [u, fe) is reported by block `b`. */
  predicate Reports(b: Block, u: int, fe: int, p: int) {
    ClipLeft(b, u) <= p < ClipRight(b, fe)
  }

  ghost predicate Reported(blocks: seq<Block>, from: nat, to: nat, u: int, fe: int, p: int) {
    exists i :: from <= i < to && i < |blocks| && Reports(blocks[i], u, fe, p)
  }

  /** The code's clipping: the comparison that keeps a block is right exactly for sane ones. */
  lemma ClipDecides(b: Block, u: int, fe: int)
    requires u < fe <= u + MAX_FLIGHT
    ensures
      var left := if Lt(b.left, Wrap(u)) then Wrap(u) else b.left;
      var right := if Lt(Wrap(fe), b.right) then Wrap(fe) else b.right;
      && left == Wrap(ClipLeft(b, u)) && right == Wrap(ClipRight(b, fe))
      && u <= ClipLeft(b, u) && ClipRight(b, fe) <= fe
      && (Sane(b, u, fe) <==> (Lt(left, right) <==> ClipLeft(b, u) < ClipRight(b, fe)))
  {
    var l, r := ClipLeft(b, u), ClipRight(b, fe);
    Reach(u, b.left);
    BackWrap(b.right, fe);
    if l - r < HALF {
      SerialOrder(l, r);
    } else {
      SubWrap(l, r);
      SmallWrap(l - r);
    }
  }

  lemma BackWrap(x: u32, fe: int)
    ensures Wrap(fe - Sub32(Wrap(fe), x)) == x
  {
    SmallWrap(x);
    SubWrap(fe, x);
    ghost var k := (fe - x) / WRAP;
    assert fe - Wrap(fe - x) == x + k * WRAP;
    ModShift(x, k);
  }

  /** What the code's clipping leaves of a block. */
  function Cutoff(b: Block, una: u32, flightEnd: u32): seq<Block> {
    var left := if Lt(b.left, una) then una else b.left;
    var right := if Lt(flightEnd, b.right) then flightEnd else b.right;
    if Lt(left, right) then [Block(left, right)] else []
  }

  /** A block cut from the stream near the flight is clipped to the flight. */
  lemma HonestBlock(l: int, r: int, u: int, fe: int)
    requires u <= fe + 1 && fe <= u + MAX_FLIGHT && l < r && -HALF < l - u < HALF && -HALF < r - fe < HALF
    ensures
      var b := Block(Wrap(l), Wrap(r));
      && ClipLeft(b, u) == (if l < u then u else l) && ClipRight(b, fe) == (if r > fe then fe else r)
      && Sane(b, u, fe)
  {
    SerialOrder(l, u);
    SerialOrder(fe, r);
  }

  const UINT32_MAX: u32 := 0xFFFF_FFFF

  /** Where `range_insert` stands when `k`..`j` are merged with [l, r). */
  ghost predicate Inserting(list: seq<Block>, at: seq<Span>, k: nat, j: nat, l: int, r: int, lo: int, hi: int,
                            left: u32, right: u32, news: u32) {
    && (k < |at| ==> l <= at[k].right)
    && Sorted(list, at, lo, hi) && lo <= l < r <= hi && Touching(at, k, j, l, r)
    && left == Wrap(Lowest(at, k, j, l)) && right == Wrap(Highest(at, k, j, r))
    && news == r - l - Overlaps(at[..j], l, r)
  }

  /** `range_insert` passes the ranges that end before `left`. */
  lemma InsertStart(list: seq<Block>, at: seq<Span>, k: nat, l: int, r: int, lo: int, hi: int)
    requires Sorted(list, at, lo, hi) && lo <= l < r <= hi && k <= |at| && forall i :: 0 <= i < k ==> at[i].right < l
    requires k < |at| ==> l <= at[k].right
    ensures Inserting(list, at, k, k, l, r, lo, hi, Wrap(l), Wrap(r), Sub32(Wrap(r), Wrap(l)))
  {
    OverlapsBefore(at[..k], l, r);
    Distance(r, l);
  }

  /** The next range touches: it is merged, its share is not new. */
  lemma InsertStep(list: seq<Block>, at: seq<Span>, k: nat, j: nat, l: int, r: int, lo: int, hi: int, left: u32,
                   right: u32, news: u32)
    requires Inserting(list, at, k, j, l, r, lo, hi, left, right, news) && j < |list| && !Lt(right, list[j].left)
    ensures
      var cur := list[j];
      var from := if Lt(Wrap(l), cur.left) then cur.left else Wrap(l);
      var to := if Lt(cur.right, Wrap(r)) then cur.right else Wrap(r);
      Inserting(list, at, k, j + 1, l, r, lo, hi,
                if Lt(cur.left, left) then cur.left else left, if Lt(right, cur.right) then cur.right else right,
                if Lt(from, to) then Sub32(news, Sub32(to, from)) else news)
  {
    assert k <= j;
    hide Lt, Wrap, Sub32, Spaced, Touching, Lowest, Highest, Overlaps, Overlap, Codes;
    assert CodeAt(list[j], at[j]);
    var s, cur := at[j], list[j];
    var lowest, highest := Lowest(at, k, j, l), Highest(at, k, j, r);
    MergeBounds(at, k, j, l, r, lo, hi);
    SerialOrder(highest, s.left);
    TouchNext(at, k, j, l, r);
    Compare(cur, s, lo, hi, lowest, highest);
    NewsStep(cur, s, lo, hi, l, r, news);
  }

  /** What an interval already had is not new. */
  lemma NewsStep(cur: Block, s: Span, lo: int, hi: int, l: int, r: int, news: u32)
    requires CodeAt(cur, s) && lo <= s.left < s.right <= hi && hi - lo < HALF && lo <= l < r <= hi
    requires news >= Overlap(s.left, s.right, l, r)
    ensures
      var from := if Lt(Wrap(l), cur.left) then cur.left else Wrap(l);
      var to := if Lt(cur.right, Wrap(r)) then cur.right else Wrap(r);
      (if Lt(from, to) then Sub32(news, Sub32(to, from)) else news) == news - Overlap(s.left, s.right, l, r)
  {
    hide Lt, Wrap, Sub32;
    Compare(cur, s, lo, hi, l, r);
    var f, t := if l < s.left then s.left else l, if s.right < r then s.right else r;
    SerialOrder(f, t);
    if f < t {
      Distance(t, f);
      Difference(news, t - f);
    }
  }

  /** One more interval touches: the hull grows by it, and so does the overlap. */
  lemma TouchNext(at: seq<Span>, k: nat, j: nat, l: int, r: int)
    requires Spaced(at) && Touching(at, k, j, l, r) && l < r && j < |at| && at[j].left <= Highest(at, k, j, r)
    requires j == k ==> l <= at[j].right
    ensures Touching(at, k, j + 1, l, r)
    ensures Lowest(at, k, j + 1, l) == if at[j].left < Lowest(at, k, j, l) then at[j].left else Lowest(at, k, j, l)
    ensures Highest(at, k, j + 1, r) == if Highest(at, k, j, r) < at[j].right then at[j].right else Highest(at, k, j, r)
    ensures Overlaps(at[..j + 1], l, r) == Overlaps(at[..j], l, r) + Overlap(at[j].left, at[j].right, l, r) <= r - l
  {
    hide Overlaps, Overlap;
    OverlapsNext(at, j, l, r);
    SpacedPrefix(at, j + 1);
    CountOverlaps(at[..j + 1], l, r);
    CountBound(at[..j + 1], l, r);
    if k < j { assert at[k].left < at[j].left && at[j - 1].right < at[j].left && l <= at[j].right; }
  }

  lemma Difference(a: u32, b: u32)
    requires b <= a
    ensures Sub32(a, b) == a - b
  {
  }

  lemma MergeBounds(at: seq<Span>, k: nat, j: nat, l: int, r: int, lo: int, hi: int)
    requires Spaced(at) && Inside(at, lo, hi) && Touching(at, k, j, l, r) && lo <= l < r <= hi && j < |at|
    ensures lo <= Lowest(at, k, j, l) <= l && r <= Highest(at, k, j, r) <= hi && lo <= at[j].left < at[j].right <= hi
    ensures Spaced(at[..j + 1])
    ensures at[j].left <= Highest(at, k, j, r) ==> at[j].left <= r
    ensures k < j ==> at[k].left < at[j].left && at[j - 1].right < at[j].left
  {
  }

  /** The merge is complete. */
  lemma InsertDone(list: seq<Block>, at: seq<Span>, k: nat, j: nat, l: int, r: int, lo: int, hi: int, left: u32,
                   right: u32, news: u32)
    requires Inserting(list, at, k, j, l, r, lo, hi, left, right, news) && (j < |list| ==> Lt(right, list[j].left))
    ensures
      var to := Merge(at, k, j, l, r);
      && Sorted(list[..k] + [Block(left, right)] + list[j..], to, lo, hi)
      && news == r - l - Count(at, l, r)
      && forall p :: In(to, p) <==> In(at, p) || l <= p < r
  {
    hide Lt, Wrap, Spaced, In, Count, Overlaps, Inside;
    if j < |list| {
      MergeBounds(at, k, j, l, r, lo, hi);
      SerialOrder(Highest(at, k, j, r), at[j].left);
    }
    MergeSpaced(at, k, j, l, r, lo, hi);
    MergeCodes(list, at, k, j, l, r);
    forall p
      ensures In(Merge(at, k, j, l, r), p) <==> In(at, p) || l <= p < r
    {
      MergeIn(at, k, j, l, r, p);
    }
    MergeCount(at, k, j, l, r);
  }

  lemma MergeCodes(list: seq<Block>, at: seq<Span>, k: nat, j: nat, l: int, r: int)
    requires Codes(list, at) && k <= j <= |at|
    ensures
      var b := Block(Wrap(Lowest(at, k, j, l)), Wrap(Highest(at, k, j, r)));
      Codes(list[..k] + [b] + list[j..], Merge(at, k, j, l, r))
  {
  }

  lemma MergeCount(at: seq<Span>, k: nat, j: nat, l: int, r: int)
    requires Spaced(at) && Touching(at, k, j, l, r) && l < r && (j < |at| ==> Highest(at, k, j, r) < at[j].left)
    ensures Count(at, l, r) == Overlaps(at[..j], l, r)
  {
    hide Overlaps, Count;
    CountOverlaps(at, l, r);
    forall i | j <= i < |at|
      ensures r <= at[i].left
    {
      SpacedOrder(at, j, i);
    }
    OverlapsTouching(at, k, j, l, r);
  }

  /** `candidate_set`: at most one SMSS; `good` says that the numbers stand for `s` and `e`. */
  method CandidateSet(kind: Kind, rule: nat, rescue: bool, sq: u32, end: u32, mss: nat, ghost good: bool,
                      ghost s: int, ghost e: int)
    returns (ok: bool, c: Candidate, ghost upto: int)
    requires kind != Nothing && mss < 0x10000
    requires good ==> sq == Wrap(s) && end == Wrap(e) && -HALF < s - e < HALF
    ensures ok <==> Lt(sq, end)
    ensures ok ==> Brief(c) && c == Candidate(kind, rule, rescue, sq, c.end)
    ensures !ok ==> c == NONE
    ensures good ==> (ok <==> s < e)
    ensures good && ok ==> upto == Min(e, s + Smss(mss)) && c.end == Wrap(upto)
  {
    if good {
      SerialOrder(s, e);
      SerialOrder(e, s);
      AddWrap(s, Smss(mss));
    }
    StepBack(sq, Smss(mss));
    Behind(sq, end);
    hide Lt, Wrap, Sub32, Add32;
    if !Lt(sq, end) {
      return false, NONE, e;
    }
    var last := if Sub32(end, sq) > Smss(mss) then Add32(sq, Smss(mss)) else end;
    return true, Candidate(kind, rule, rescue, sq, last), Min(e, s + Smss(mss));
  }

  lemma StepBack(x: u32, n: nat)
    requires n < 0x10000
    ensures Sub32(Add32(x, n), x) == n
  {
  }

  lemma Behind(x: u32, y: u32)
    ensures Lt(x, y) ==> 0 < Sub32(y, x)
  {
  }

  /** A candidate has octets, and fewer than a segment can carry. */
  predicate Brief(c: Candidate) {
    if c.kind == Nothing then c == NONE else 0 < Sub32(c.end, c.sq) < 0x10000
  }

  /** Retransmissions of one episode, each after the previous one. */
  ghost predicate Increasing(q: seq<Span>) {
    && (forall i :: 0 <= i < |q| ==> q[i].left < q[i].right)
    && (forall i, j :: 0 <= i < j < |q| ==> q[i].right <= q[j].left)
  }

  /** The loss-recovery variables of `tcp_sack_state`. */
  datatype Recovery = Recovery(mode: Mode, highRxt: u32, rescueRxt: u32, recoveryPoint: u32,
                               pipe: u32, dupAcks: nat, limited: bool, pending: Candidate)

  /** Their unwrapped positions, and what the current episode has done: where
      SND.UNA was at its entry, what it retransmitted, how often it rescued. */
  datatype Log = Log(hr: int, rr: int, rp: int, ps: int, pe: int, entry: int, sent: seq<Span>, rescues: nat)

  /** Recovery is over, and everything it counted is forgotten. */
  function Calm(r: Recovery): Recovery {
    r.(mode := Normal, pipe := 0, dupAcks := 0, limited := false, pending := NONE)
  }

  /** What an ACK for `u` leaves of the pending choice: nothing of new data, or once all of it is acknowledged. */
  ghost function Left(r: Recovery, log: Log, hd: int, u: int): Candidate {
    if r.pending != NONE && (log.ps >= hd || log.pe <= u) then NONE else r.pending
  }

  /** The first unacknowledged segment. */
  function Foremost(u: int, hd: int, smss: nat): Candidate {
    Candidate(Retransmit, 1, false, Wrap(u), Wrap(Min(u + smss, hd)))
  }

  /** What `tcp_sack_update` leaves of recovery: reaching RecoveryPoint ends it, a refused node gives it up. */
  ghost function Settled(r: Recovery, log: Log, hd: int, u: int, failed: bool): Recovery {
    if failed || (r.mode in {SackRecovery, RtoRecovery} && u >= log.rp) then Calm(r)
    else r.(pending := Left(r, log, hd, u))
  }

  lemma SettledBy(r: Recovery, trimmed: Recovery, log: Log, hd: int, u: int, failed: bool)
    requires trimmed == r.(pending := Left(r, log, hd, u))
    ensures Settled(r, log, hd, u, failed) ==
            if failed || (r.mode in {SackRecovery, RtoRecovery} && u >= log.rp) then Calm(trimmed) else trimmed
    ensures Settled(r, log, hd, u, failed).mode == if failed || (r.mode in {SackRecovery, RtoRecovery} && u >= log.rp)
              then Normal else r.mode
  {
  }

  /** An episode begins at `u`: it lasts up to `hd`, and starts with the first segment. */
  ghost predicate Opened(r: Recovery, log: Log, mode: Mode, dups: nat, u: int, hd: int, smss: nat) {
    && r == Recovery(mode, Wrap(u), Wrap(u), Wrap(hd), r.pipe, dups, false, Foremost(u, hd, smss))
    && log == Log(u, u, hd, u, Min(u + smss, hd), u, [], 0)
  }

  /** `block_contains` */
  predicate Contains(outer: Block, inner: Block) {
    Leq(outer.left, inner.left) && Leq(inner.right, outer.right)
  }

  /** The first block is a D-SACK: below the ACK, or inside the second block. */
  predicate IsDsack(all: seq<Block>, packetAck: u32) {
    all != [] && (Leq(all[0].right, packetAck) || (|all| > 1 && Contains(all[1], all[0])))
  }

  /** Blocks that stand for the octets `at` of one stretch of the stream. */
  ghost predicate Stands(all: seq<Block>, at: seq<Span>, lo: int, hi: int) {
    && |at| == |all| && hi - lo < HALF
    && forall i :: 0 <= i < |all| ==> CodeAt(all[i], at[i]) && lo <= at[i].left < at[i].right <= hi
  }

  /** In terms of octets: the first block is a D-SACK exactly if the ACK covers it or the second block does. */
  lemma DsackMeans(all: seq<Block>, at: seq<Span>, a: int, lo: int, hi: int)
    requires Stands(all, at, lo, hi) && lo <= a <= hi
    ensures IsDsack(all, Wrap(a)) <==>
              && all != []
              && (|| at[0].right <= a
                  || (|all| > 1 && at[1].left <= at[0].left && at[0].right <= at[1].right))
  {
    hide Wrap, Lt;
    if all != [] {
      assert CodeAt(all[0], at[0]);
      SerialOrder(at[0].right, a);
      if |all| > 1 {
        assert CodeAt(all[1], at[1]);
        SerialOrder(at[1].left, at[0].left);
        SerialOrder(at[0].right, at[1].right);
      }
    }
  }

  /** Which blocks of an ACK are merged. */
  function From(all: seq<Block>, packetAck: u32): nat { if IsDsack(all, packetAck) then 1 else 0 }

  function Upto(all: seq<Block>): nat { if |all| > MAX_BLOCKS then MAX_BLOCKS else |all| }

  lemma MergedFrom(all: seq<Block>, packetAck: u32)
    ensures From(all, packetAck) <= Upto(all) <= |all| && (IsDsack(all, packetAck) ==> all != [])
  {
  }

  /** Every block that is merged can be told from an empty one by the code's comparison. */
  ghost predicate AllSane(all: seq<Block>, packetAck: u32, u: int, fe: int) {
    forall i :: From(all, packetAck) <= i < Upto(all) ==> Sane(all[i], u, fe)
  }

  /** HighRxt is meaningful while something is marked retransmitted. */
  ghost predicate Marked(rec: Recovery, log: Log, rtx: seq<Block>, rat: seq<Span>, hd: int, u: int)
  {
    && rec.highRxt == Wrap(log.hr)
    && (rec.mode != Normal || rtx != [] ==>
      && log.entry <= log.hr <= hd && log.entry <= u <= log.entry + 2 * MAX_FLIGHT + 1
      && Inside(rat, u, log.entry + 2 * MAX_FLIGHT))
  }

  /** RecoveryPoint is fixed and not yet reached. */
  ghost predicate Recovering(rec: Recovery, log: Log, hd: int)
  {
    rec.mode != Normal ==>
      && rec.recoveryPoint == Wrap(log.rp) && log.entry <= log.rp <= hd && log.rp <= log.entry + MAX_FLIGHT
      && rec.rescueRxt == Wrap(log.rr) && log.entry <= log.rr <= log.rp
  }

  ghost predicate Planned(rec: Recovery, log: Log, hd: int)
  {
    rec.pending != NONE ==>
      && rec.pending.kind != Nothing && rec.mode != Normal
      && rec.pending.sq == Wrap(log.ps) && rec.pending.end == Wrap(log.pe)
      && log.entry <= log.ps < log.pe <= log.ps + 0x10000
      && (rec.pending.kind == Retransmit ==> log.pe <= hd)
      && (rec.pending.kind == NewData ==> log.ps == hd && rec.mode == SackRecovery && !rec.pending.rescue)
      && (rec.mode == SackRecovery && rec.pending.kind == Retransmit && !rec.pending.rescue ==> log.hr <= log.ps)
      && (rec.pending.rescue ==> rec.mode == SackRecovery && log.rescues == 0)
  }

  /** Retransmissions of a SACK episode are increasing and disjoint, apart from
      at most one rescue, which closes the rescue guard. */
  ghost predicate Episode(rec: Recovery, log: Log)
  {
    rec.mode == SackRecovery ==>
      && Increasing(log.sent)
      && (forall i :: 0 <= i < |log.sent| ==> log.entry <= log.sent[i].left && log.sent[i].right <= log.hr)
      && log.rescues <= 1 && log.rr == (if log.rescues == 1 then log.rp else log.entry)
  }

  /** The scoreboard.  `sane` holds as long as every block ever merged was sane; while it
      does, the lists are exact.  Without it only `Weak` is promised. */
  class Scoreboard {
    var sacked: seq<Block>
    var rtx: seq<Block>
    var rangeCount: nat
    var degraded: bool
    var degradedUntil: u32
    var highData: u32
    var rec: Recovery
    ghost var at: seq<Span>    // unwrapped `sacked`
    ghost var rat: seq<Span>   // unwrapped `rtx`
    ghost var hd: int          // unwrapped `highData`
    ghost var du: int          // unwrapped `degradedUntil`
    ghost var log: Log
    ghost var denied: nat      // range nodes the cap or the allocator turned away
    ghost var sane: bool

    constructor (initial: u32)
      ensures Valid(initial) && sane && at == [] && rat == [] && hd == initial && highData == initial
      ensures rec == Recovery(Normal, initial, initial, initial, 0, 0, false, NONE)
      ensures !degraded && rangeCount == 0 && denied == 0 && sacked == [] && rtx == []
    {
      sacked, rtx, rangeCount, degraded, degradedUntil, sane, denied := [], [], 0, false, 0, true, 0;
      highData, rec := initial, Recovery(Normal, initial, initial, initial, 0, 0, false, NONE);
      at, rat, hd, du, log := [], [], initial, 0, Log(initial, initial, initial, 0, 0, initial, [], 0);
    }

    /** What every block keeps, sane or not: the nodes are counted and capped, HighData is
        known, and the pending candidate is brief and, for new data, starts there. */
    ghost predicate Weak()
      reads this`sacked, this`rtx, this`rangeCount, this`rec, this`highData, this`hd
    {
      && rangeCount == |sacked| + |rtx| <= MAX_RANGES && Brief(rec.pending)
      && highData == Wrap(hd) && (rec.pending.kind == NewData ==> rec.pending.sq == highData)
    }

    /** Nothing is left of any report: no ranges, no recovery, nothing pending. */
    ghost predicate Blank()
      reads this`sacked, this`rtx, this`rec, this`degraded
    {
      sacked == [] && rtx == [] && rec.mode == Normal && rec.pending == NONE && !degraded
    }

    /** Then the lists are exact again, whatever was merged before. */
    ghost method Restore(u: int)
      requires Valid(u) && Blank() && u <= hd + 1 && hd - u <= MAX_FLIGHT
      modifies this`at, this`rat, this`log, this`sane
      ensures Valid(u) && sane && at == [] && rat == []
    {
      at, rat, log, sane := [], [], log.(hr := rec.highRxt), true;
    }

    /** Both lists are sorted, disjoint, and inside the flight from `u`. */
    ghost predicate Lists(u: int)
      reads this`sacked, this`rtx, this`at, this`rat, this`hd, this`highData
    {
      && Sorted(sacked, at, u, hd) && Sorted(rtx, rat, u, hd)
      && highData == Wrap(hd) && u <= hd + 1 && hd - u <= MAX_FLIGHT
    }

    ghost predicate Degraded(u: int)
      reads this`degraded, this`sacked, this`degradedUntil, this`du, this`hd
    {
      degraded ==> sacked == [] && degradedUntil == Wrap(du) && u < du <= hd
    }

    /** The lists are exact and the episode is on the books. */
    ghost predicate Exact(u: int)
      reads this`sacked, this`rtx, this`at, this`rat, this`hd, this`highData
      reads this`degraded, this`degradedUntil, this`du, this`rec, this`log
    {
      && Lists(u) && Marked(rec, log, rtx, rat, hd, u) && Recovering(rec, log, hd)
      && Planned(rec, log, hd) && Episode(rec, log) && Degraded(u)
    }

    /** And RecoveryPoint lies ahead. */
    ghost predicate Running(u: int)
      reads this`sacked, this`rtx, this`at, this`rat, this`hd, this`highData
      reads this`degraded, this`degradedUntil, this`du, this`rec, this`log
    {
      Exact(u) && (rec.mode != Normal ==> u < log.rp)
    }

    ghost predicate Sound(u: int)
      reads this
    {
      Weak() && (sane ==> Exact(u))
    }

    ghost predicate Valid(u: int)
      reads this
    {
      Weak() && (sane ==> Running(u))
    }

    /** `range_insert`: newly covered bytes, or UINT32_MAX and an intact list
        when a node is needed and none is left. */
    method RangeInsert(list: seq<Block>, left0: u32, right0: u32, ghost good: bool, ghost at: seq<Span>, ghost l: int,
                       ghost r: int, ghost lo: int, ghost hi: int)
      returns (out: seq<Block>, added: u32, ghost to: seq<Span>)
      requires |list| <= rangeCount <= MAX_RANGES
      requires good ==> Sorted(list, at, lo, hi) && lo <= l < r <= hi && left0 == Wrap(l) && right0 == Wrap(r)
      modifies this`rangeCount, this`denied
      ensures rangeCount <= MAX_RANGES && rangeCount - |out| == old(rangeCount) - |list|
      ensures good ==> denied == old(denied) + if added == UINT32_MAX then 1 else 0
      ensures good && added == UINT32_MAX ==> out == list && to == at
      ensures good && added != UINT32_MAX ==>
                Sorted(out, to, lo, hi) && (forall p :: In(to, p) <==> In(at, p) || l <= p < r)
      ensures good && added != UINT32_MAX ==> added == r - l - Count(at, l, r)
      ensures list == [] && added != UINT32_MAX ==> out == [Block(left0, right0)] && added == Sub32(right0, left0)
    {
      hide Sorted, In, Count, Lt, Wrap, Sub32, Inserting;
      to := at;
      if good { WindowSize(list, at, lo, hi); }
      var k := 0;
      while k < |list| && Lt(list[k].right, left0)
        invariant rangeCount == old(rangeCount) && denied == old(denied)
        invariant k <= |list| && (good ==> |at| == |list| && forall i :: 0 <= i < k ==> at[i].right < l)
      {
        if good {
          Element(list, at, k, lo, hi);
          Compare(list[k], at[k], lo, hi, l, r);
        }
        k := k + 1;
      }
      var j, left, right, news := k, left0, right0, Sub32(right0, left0);
      if good {
        if k < |list| {
          Element(list, at, k, lo, hi);
          Compare(list[k], at[k], lo, hi, l, r);
        }
        InsertStart(list, at, k, l, r, lo, hi);
      }
      while j < |list| && !Lt(right, list[j].left)
        invariant
          && k <= j <= |list| && rangeCount == old(rangeCount) - (if j > k then j - k - 1 else 0)
          && denied == old(denied)
        invariant j == k ==> left == left0 && right == right0 && news == Sub32(right0, left0)
        invariant good ==> Inserting(list, at, k, j, l, r, lo, hi, left, right, news)
      {
        if good { InsertStep(list, at, k, j, l, r, lo, hi, left, right, news); }
        var cur := list[j];
        var from := if Lt(left0, cur.left) then cur.left else left0;
        var upto := if Lt(cur.right, right0) then cur.right else right0;
        if Lt(from, upto) {
          news := Sub32(news, Sub32(upto, from));
        }
        if Lt(cur.left, left) {
          left := cur.left;
        }
        if Lt(right, cur.right) {
          right := cur.right;
        }
        if j > k {
          rangeCount := Minus(rangeCount, 1);
        }
        j := j + 1;
      }
      if j == k {
        var granted: bool := *;
        if rangeCount >= MAX_RANGES || !granted {
          denied := denied + 1;
          return list, UINT32_MAX, at;
        }
        rangeCount := rangeCount + 1;
      }
      if good {
        InsertDone(list, at, k, j, l, r, lo, hi, left, right, news);
        to := Merge(at, k, j, l, r);
      }
      out, added := list[..k] + [Block(left, right)] + list[j..], news;
    }

    /** `range_list_clear` on both lists. */
    method ClearLists()
      requires rangeCount == |sacked| + |rtx|
      modifies this`sacked, this`rtx, this`rangeCount, this`at, this`rat
      ensures sacked == [] && rtx == [] && rangeCount == 0 && at == [] && rat == []
    {
      while sacked != []
        invariant rangeCount == |sacked| + |rtx|
        decreases |sacked|
      {
        rangeCount := Minus(rangeCount, 1);
        sacked := sacked[1..];
      }
      while rtx != []
        invariant rangeCount == |sacked| + |rtx| && sacked == []
        decreases |rtx|
      {
        rangeCount := Minus(rangeCount, 1);
        rtx := rtx[1..];
      }
      at, rat := [], [];
    }

    /** `range_list_trim` */
    method RangeTrim(list: seq<Block>, left: u32, right: u32, ghost good: bool, ghost ats: seq<Span>, ghost lo: int,
                     ghost l: int, ghost r: int)
      returns (out: seq<Block>)
      requires |list| <= rangeCount
      requires good ==> Sorted(list, ats, lo, r) && lo <= l < r && left == Wrap(l) && right == Wrap(r)
      modifies this`rangeCount
      ensures rangeCount - |out| == old(rangeCount) - |list| && |out| <= |list|
      ensures good ==> Sorted(out, Trim(ats, l, r), l, r)
    {
      hide Spaced, Lt, Wrap, Inside, Trim;
      if good { TrimNothing(ats, l, r); }
      out := [];
      for i := 0 to |list|
        invariant rangeCount == old(rangeCount) - i + |out| && |out| <= i
        invariant good ==> Codes(out, Trim(ats[..i], l, r))
      {
        var cur := list[i];
        if good {
          Bounds(ats, i, lo, r);
          Compare(cur, ats[i], lo, r, l, r);
          TrimNext(ats, i, l, r);
        }
        if !Lt(cur.left, right) || !Lt(left, cur.right) {
          rangeCount := Minus(rangeCount, 1);
        } else {
          var from := if Lt(cur.left, left) then left else cur.left;
          var upto := SeqMin(right, cur.right);
          out := out + [Block(from, upto)];
        }
      }
      if good {
        assert ats[..|list|] == ats;
        TrimSpaced(ats, l, r);
      }
    }

    lemma TrimRetransmitted(v: int, u: int)
      requires Sorted(rtx, rat, v, hd) && Inside(rat, v, log.entry + 2 * MAX_FLIGHT) && u < hd
      ensures Inside(Trim(rat, u, hd), u, log.entry + 2 * MAX_FLIGHT)
    {
      TrimWithin(rat, u, hd, v, log.entry + 2 * MAX_FLIGHT);
    }

    /** Clip both lists to the flight that is left. */
    method TrimRanges(una: u32, flightEnd: u32, ghost v: int, ghost u: int)
      requires Weak()
      requires sane ==>
                 && Lists(v) && Marked(rec, log, rtx, rat, hd, v) && v <= u <= hd + 1 && una == Wrap(u)
                 && flightEnd == Wrap(hd)
      requires sane && rec.mode != Normal ==> v < log.rp <= log.entry + MAX_FLIGHT
      modifies this`sacked, this`rtx, this`rangeCount, this`at, this`rat
      ensures Weak() && (old(sacked) == [] ==> sacked == []) && (old(rtx) == [] ==> rtx == [])
      ensures !Lt(una, flightEnd) ==> sacked == [] && rtx == []
      ensures sane ==> Lists(u) && Marked(rec, log, rtx, rat, hd, u)
      ensures sane ==> forall p :: In(at, p) <==> In(old(at), p) && u <= p
      ensures sane ==> forall p :: In(rat, p) <==> In(old(rat), p) && u <= p
    {
      hide Sorted, Spaced, Lt, Wrap, In, Trim, Inside, Brief;
      ghost var was, wasRat := at, rat;
      if sane {
        SerialOrder(u, hd);
        InBelow(sacked, at, v, hd);
        InBelow(rtx, rat, v, hd);
      }
      if !Lt(una, flightEnd) {
        ClearLists();
        if sane {
          InNone();
          SortedNone(u, hd, log.entry + 2 * MAX_FLIGHT);
        }
      } else {
        if sane && (rec.mode != Normal || rtx != []) { TrimRetransmitted(v, u); }
        sacked := RangeTrim(sacked, una, flightEnd, sane, at, v, u, hd);
        rtx := RangeTrim(rtx, una, flightEnd, sane, rat, v, u, hd);
        at, rat := Trim(at, u, hd), Trim(rat, u, hd);
        if sane {
          forall p
            ensures In(Trim(was, u, hd), p) <==> In(was, p) && u <= p
            ensures In(Trim(wasRat, u, hd), p) <==> In(wasRat, p) && u <= p
          {
            TrimIn(was, u, hd, p);
            TrimIn(wasRat, u, hd, p);
          }
          if rtx != [] && (rec.mode != Normal || old(rtx) != []) {
            SomeInside(rtx, rat, u, hd, log.entry + 2 * MAX_FLIGHT);
          }
        }
      }
    }

    /** `tcp_sack_trim` after a cumulative ACK moved from `v` to `u`. */
    method TrimTo(una: u32, flightEnd: u32, ghost v: int, ghost u: int)
      requires Valid(v) && una == Wrap(u) && (sane ==> v <= u <= hd + 1 && flightEnd == Wrap(hd))
      modifies this`sacked, this`rtx, this`rangeCount, this`at, this`rat, this`degraded, this`rec
      ensures Sound(u) && (degraded ==> old(degraded)) && (old(sacked) == [] ==> sacked == [])
      ensures sane ==> (degraded <==> old(degraded) && u < du)
      ensures !Lt(una, flightEnd) ==> sacked == [] && rtx == []
      ensures sane ==> forall p :: In(at, p) <==> In(old(at), p) && u <= p
      ensures sane ==> forall p :: In(rat, p) <==> In(old(rat), p) && u <= p
      ensures rec == old(rec) || rec == old(rec).(pending := NONE)
      ensures sane ==> rec.pending == Left(old(rec), log, hd, u)
    {
      hide Sorted, Lt, Wrap, In, Inside, Increasing, Lists, Left;
      if sane {
        LiveBounds(v);
        if rec.pending != NONE { PendingNear(v); }
      }
      TrimRanges(una, flightEnd, v, u);
      if sane { LiveBounds2(u); }
      if degraded {
        if sane { SerialOrder(u, du); }
        if !Lt(una, degradedUntil) {
          degraded := false;
        }
      }
      TrimPending(una, flightEnd, u);
    }

    /** A choice that starts beyond the flight or is acknowledged goes. */
    method TrimPending(una: u32, flightEnd: u32, ghost u: int)
      requires una == Wrap(u) && Brief(rec.pending) && (sane ==> flightEnd == Wrap(hd) && hd - u <= MAX_FLIGHT)
      requires sane && rec.pending != NONE ==> Near(u)
      modifies this`rec
      ensures rec == old(rec) || rec == old(rec).(pending := NONE)
      ensures sane ==> rec.pending == Left(old(rec), log, hd, u)
    {
      hide Lt, Wrap;
      if sane && rec.pending != NONE {
        SerialOrder(log.ps, hd);
        SerialOrder(u, log.pe);
      }
      if rec.pending.kind != Nothing {
        if !Lt(rec.pending.sq, flightEnd) || !Lt(una, rec.pending.end) {
          rec := rec.(pending := NONE);
        }
      }
    }

    /** The pending choice is close to the flight. */
    ghost predicate Near(u: int)
      reads this`rec, this`log, this`hd
    {
      && rec.pending.sq == Wrap(log.ps) && rec.pending.end == Wrap(log.pe)
      && -HALF / 2 < log.ps - hd < HALF / 2 && log.ps < log.pe <= log.ps + 0x10000 && u <= hd + 1
    }

    lemma LiveBounds(v: int)
      requires Exact(v)
      ensures v <= hd + 1 && hd - v <= MAX_FLIGHT
    {
      hide Sorted, Inside;
    }

    lemma PendingNear(v: int)
      requires Running(v) && rec.pending != NONE
      ensures Near(v)
    {
    }

    lemma LiveBounds2(u: int)
      requires Lists(u)
      ensures u <= hd + 1 && hd - u <= MAX_FLIGHT
    {
      hide Sorted, Inside;
    }

    /** `sack_degrade`: give up selective information for this flight. */
    method Degrade()
      requires rangeCount == |sacked| + |rtx| && highData == Wrap(hd)
      modifies this`sacked, this`rtx, this`rangeCount, this`at, this`rat
      modifies this`degraded, this`degradedUntil, this`du, this`rec
      ensures sacked == [] && rtx == [] && rangeCount == 0 && at == [] && rat == [] && Weak()
      ensures degraded && degradedUntil == highData && du == hd
      ensures rec == Calm(old(rec))
    {
      ClearLists();
      degraded, degradedUntil := true, highData;
      rec := Calm(rec);
      du := hd;
    }

    /** `tcp_sack_state_reset` */
    method Reset(initial: u32, ghost pos: int)
      requires Weak() && initial == Wrap(pos)
      modifies this
      ensures Valid(pos) && sane && at == [] && rat == [] && hd == pos && Blank() && denied == old(denied)
      ensures rec == Recovery(Normal, initial, initial, initial, 0, 0, false, NONE)
    {
      ClearLists();
      degraded, degradedUntil, sane, highData := false, 0, true, initial;
      rec := Recovery(Normal, initial, initial, initial, 0, 0, false, NONE);
      hd, du, log := pos, 0, Log(pos, pos, pos, 0, 0, pos, [], 0);
    }

    lemma DegradedRunning(u: int)
      requires sacked == [] && rtx == [] && at == [] && rat == [] && highData == Wrap(hd)
      requires degraded && degradedUntil == Wrap(hd) && du == hd
      requires rec.mode == Normal && rec.pending == NONE && rec.highRxt == Wrap(log.hr)
      requires u < hd <= u + MAX_FLIGHT
      ensures Running(u)
    {
    }

    /** Merge the blocks of one ACK, each clipped to the flight. */
    method Apply(blocks: seq<Block>, from: nat, count: nat, una: u32, flightEnd: u32, ghost u: int, ghost good: bool)
      returns (newly: u32, failed: bool)
      requires from <= count <= |blocks| && rangeCount == |sacked| + |rtx| <= MAX_RANGES
      requires good ==> una == Wrap(u) && flightEnd == Wrap(hd) && u < hd <= u + MAX_FLIGHT && Sorted(sacked, at, u, hd)
      requires good ==> forall i :: from <= i < count ==> Sane(blocks[i], u, hd)
      modifies this`sacked, this`at, this`rangeCount, this`denied
      ensures rangeCount == |sacked| + |rtx| <= MAX_RANGES
      ensures good ==> denied == old(denied) + if failed then 1 else 0
      ensures good && !failed ==> Sorted(sacked, at, u, hd)
      ensures good && !failed ==> forall p :: In(at, p) <==> In(old(at), p) || Reported(blocks, from, count, u, hd, p)
      ensures good && !failed ==> newly == Count(at, u, hd) - Count(old(at), u, hd)
      ensures !failed && old(sacked) == [] && count == from + 1 ==> sacked == Cutoff(blocks[from], una, flightEnd)
    {
      hide Sorted, In, Count, Lt, Wrap, Sub32, Add32, Sane, Reports, ClipLeft, ClipRight;
      newly, failed := 0, false;
      for i := from to count
        invariant rangeCount == |sacked| + |rtx| <= MAX_RANGES
        invariant good ==> Sorted(sacked, at, u, hd)
        invariant good ==> forall p :: In(at, p) <==> In(old(at), p) || Reported(blocks, from, i, u, hd, p)
        invariant good ==> newly == Count(at, u, hd) - Count(old(at), u, hd) && denied == old(denied)
        invariant i == from ==> sacked == old(sacked)
        invariant i == from + 1 && old(sacked) == [] ==> sacked == Cutoff(blocks[from], una, flightEnd)
      {
        var b := blocks[i];
        var left := if Lt(b.left, una) then una else b.left;
        var right := if Lt(flightEnd, b.right) then flightEnd else b.right;
        ghost var l, r := ClipLeft(b, u), ClipRight(b, hd);
        if good {
          ClipDecides(b, u, hd);
          NextReport(blocks, from, i, u, hd);
        }
        if !Lt(left, right) {
          continue;
        }
        ghost var was := at;
        var added;
        sacked, added, at := RangeInsert(sacked, left, right, good, at, l, r, u, hd);
        if added == UINT32_MAX {
          failed := true;
          return;
        }
        if good {
          CountInsert(was, at, l, r, u, hd);
          CountBound(at, u, hd);
          SmallSum(newly, added);
        }
        newly := Add32(newly, added);
      }
    }

    /** The blocks are merged, or an allocation failed and the scoreboard is given up. */
    method Absorb(all: seq<Block>, from: nat, count: nat, una: u32, flightEnd: u32, permitted: bool, ghost u: int,
                  ghost good: bool)
      returns (newly: u32, ghost applied: bool)
      requires Sound(u) && una == Wrap(u) && from <= count <= |all| && (sane ==> flightEnd == Wrap(hd))
      requires good ==> sane && forall i :: from <= i < count ==> Sane(all[i], u, hd)
      modifies this
      ensures Sound(u) && sane == good && hd == old(hd) && highData == old(highData) && log == old(log)
      ensures rec == old(rec) || rec == Calm(old(rec))
      ensures good && !permitted ==> denied == old(denied)
      ensures good ==> denied - old(denied) in {0, 1}
      ensures good ==> rec == if denied > old(denied) then Calm(old(rec)) else old(rec)
      ensures applied <==> permitted && Lt(una, flightEnd) && !degraded
      ensures !applied ==> newly == 0 && (at == old(at) || (at == [] && rat == [] && degraded && !old(degraded)))
      ensures rat == old(rat) || rat == []
      ensures !Lt(una, flightEnd) ==> sacked == old(sacked) && rtx == old(rtx)
      ensures good ==> (degraded <==> old(degraded) || denied == old(denied) + 1)
      ensures applied && old(sacked) == [] && count == from + 1 ==> sacked == Cutoff(all[from], una, flightEnd)
      ensures good && applied ==>
                && (forall p :: In(at, p) <==> In(old(at), p) || Reported(all, from, count, u, hd, p))
                && newly == Count(at, u, hd) - Count(old(at), u, hd)
    {
      hide Exact, Lt, Wrap, In, Sane, Sorted, Count, Reported, Brief;
      if good {
        ExactLists(u);
        SerialOrder(u, hd);
      }
      newly, applied := 0, false;
      sane := good;
      if !degraded && permitted && Lt(una, flightEnd) {
        var failed;
        newly, failed := Apply(all, from, count, una, flightEnd, u, good);
        applied := !failed;
        if failed {
          newly := 0;
          Degrade();
          if good {
            DegradedRunning(u);
            RunningExact(u);
          }
        } else if good {
          Reapplied(u);
        }
      }
    }

    lemma ExactLists(u: int)
      requires Exact(u)
      ensures Sorted(sacked, at, u, hd) && u <= hd + 1 && hd - u <= MAX_FLIGHT
      ensures highData == Wrap(hd) && rec.highRxt == Wrap(log.hr)
    {
    }

    lemma RunningExact(u: int)
      requires Running(u)
      ensures Exact(u)
    {
    }

    /** Only the SACKED list changed. */
    twostate lemma Reapplied(u: int)
      requires old(Exact(u)) && Sorted(sacked, at, u, hd) && !degraded
      requires unchanged(this`rtx, this`rat, this`rec, this`highData, this`hd, this`log)
      ensures Exact(u)
    {
      hide Sorted, Inside, Increasing;
    }

    /** RecoveryPoint is fixed at entry: reaching it ends the episode. */
    method ExitRecovery(una: u32, ghost u: int) returns (exited: bool)
      requires una == Wrap(u) && Sound(u)
      modifies this`rec
      ensures Sound(u) && (sane && (rec.mode == SackRecovery || rec.mode == RtoRecovery) ==> u < log.rp)
      ensures exited <==>
                (old(rec.mode) == SackRecovery || old(rec.mode) == RtoRecovery) && !Lt(una, old(rec).recoveryPoint)
      ensures rec == if exited then Calm(old(rec)) else old(rec)
      ensures sane ==> (exited <==> old(rec.mode) in {SackRecovery, RtoRecovery} && u >= log.rp)
    {
      hide Lists, Lt, Wrap, Inside;
      exited := false;
      if sane && rec.mode != Normal { SerialOrder(u, log.rp); }
      if (rec.mode == SackRecovery || rec.mode == RtoRecovery) && !Lt(una, rec.recoveryPoint) {
        rec := Calm(rec);
        exited := true;
      }
    }

    /** Whether a D-SACK, for octets `d`, reports something that was retransmitted. */
    method Covers(b: Block, ghost d: Span, ghost u: int) returns (yes: bool)
      requires Sound(u)
      ensures sane && CodeAt(b, d) && u - MAX_FLIGHT <= d.left < d.right <= u + 2 * MAX_FLIGHT ==>
                (yes <==> exists p :: d.left <= p < d.right && In(rat, p))
    {
      hide Sorted, In, Inside, Increasing, Wrap;
      ghost var good := sane && CodeAt(b, d) && u - MAX_FLIGHT <= d.left < d.right <= u + 2 * MAX_FLIGHT;
      if good { Widened(u); }
      yes := RangeIntersects(rtx, b.left, b.right, good, rat, d.left, d.right, u - MAX_FLIGHT, u + 2 * MAX_FLIGHT);
    }

    /** The D-SACK of an ACK, if it carries one. */
    method Duplicated(all: seq<Block>, packetAck: u32, ghost d: Span, ghost u: int) returns (dsack: bool, covers: bool)
      requires Sound(u)
      ensures dsack == IsDsack(all, packetAck) && (dsack ==> all != []) && (!dsack ==> !covers)
      ensures sane && dsack && CodeAt(all[0], d) && u - MAX_FLIGHT <= d.left < d.right <= u + 2 * MAX_FLIGHT ==>
                (covers <==> exists p :: d.left <= p < d.right && In(rat, p))
    {
      hide Exact, In;
      dsack, covers := IsDsack(all, packetAck), false;
      if dsack {
        covers := Covers(all[0], d, u);
      }
    }

    lemma Widened(u: int)
      requires Exact(u)
      ensures Sorted(rtx, rat, u - MAX_FLIGHT, u + 2 * MAX_FLIGHT)
    {
    }

    /** `tcp_sack_update`: the SACKED set becomes the old one clipped to the flight, united
        with the clipped blocks that are not a D-SACK, as long as every block is sane.  Any
        other block costs that promise, and nothing else. */
    method Update(una: u32, packetAck: u32, all: seq<Block>, flightEnd: u32, permitted: bool, ghost v: int,
                  ghost u: int, ghost d: Span)
      returns (newly: u32, dsack: bool, covers: bool, exited: bool, ghost applied: bool)
      requires Valid(v) && una == Wrap(u) && (sane ==> v <= u <= hd + 1 && flightEnd == Wrap(hd))
      modifies this
      ensures Sound(u) && sane == (old(sane) && AllSane(all, packetAck, u, hd))
      ensures hd == old(hd) && highData == old(highData) && log == old(log)
      ensures rec.mode == old(rec.mode) || rec.mode == Normal
      ensures !Lt(una, flightEnd) ==> sacked == [] && rtx == []
      ensures sane ==> denied - old(denied) in {0, 1} && (!permitted ==> denied == old(denied))
      ensures dsack == IsDsack(all, packetAck) && (applied <==> permitted && Lt(una, flightEnd) && !degraded)
      ensures sane && dsack && CodeAt(all[0], d) && u - MAX_FLIGHT <= d.left < d.right <= u + 2 * MAX_FLIGHT ==>
                (covers <==> exists p :: d.left <= p < d.right && u <= p && In(old(rat), p))
      ensures sane ==>
                && (applied <==> permitted && u < hd && !degraded)
                && (rec.mode == SackRecovery || rec.mode == RtoRecovery ==> u < log.rp)
                && (exited <==> denied == old(denied) && old(rec.mode) in {SackRecovery, RtoRecovery} && u >= log.rp)
                && (degraded <==> (old(degraded) && u < old(du)) || denied == old(denied) + 1)
                && rec == Settled(old(rec), log, hd, u, denied > old(denied))
      ensures sane && applied ==>
                && (forall p :: In(at, p) <==>
                     (In(old(at), p) && u <= p) || Reported(all, From(all, packetAck), Upto(all), u, hd, p))
                && newly == Count(at, u, hd) - Count(old(at), u, hd)
      ensures (!applied ==> newly == 0) && (!dsack ==> !covers) && (sane ==> forall p :: In(rat, p) ==> In(old(rat), p))
      ensures applied && old(sacked) == [] && Upto(all) == From(all, packetAck) + 1 ==>
                sacked == Cutoff(all[From(all, packetAck)], una, flightEnd)
      ensures sane && !applied ==>
                (at == [] && rat == [] && degraded) || forall p :: In(at, p) <==> In(old(at), p) && u <= p
    {
      hide Exact, Running, Lt, Leq, Wrap, In, Sane, Sorted, Count, Reported, Brief, Contains, Cutoff;
      hide IsDsack, From, Upto, Left, Settled, Calm;
      ghost var was, wasRat := at, rat;
      MergedFrom(all, packetAck);
      TrimTo(una, flightEnd, v, u);
      if sane {
        CountEqual(at, was, u, hd);
        ExactLists(u);
        SerialOrder(u, hd);
      }
      ghost var trimmed := rec;
      dsack, covers := Duplicated(all, packetAck, d, u);
      newly, applied, exited := Digest(all, From(all, packetAck), Upto(all), una, flightEnd, permitted, u,
                                       sane && AllSane(all, packetAck, u, hd));
      InNone();
      if sane { SettledBy(old(rec), trimmed, log, hd, u, denied > old(denied)); }
    }

    /** Merge the blocks, then see whether RecoveryPoint was reached. */
    method Digest(all: seq<Block>, from: nat, count: nat, una: u32, flightEnd: u32, permitted: bool, ghost u: int,
                  ghost good: bool)
      returns (newly: u32, ghost applied: bool, exited: bool)
      requires Sound(u) && una == Wrap(u) && from <= count <= |all| && (sane ==> flightEnd == Wrap(hd))
      requires good ==> sane && forall i :: from <= i < count ==> Sane(all[i], u, hd)
      modifies this
      ensures Sound(u) && sane == good && hd == old(hd) && highData == old(highData) && log == old(log)
      ensures (rec == old(rec) || rec == Calm(old(rec))) && (rec.mode == old(rec.mode) || rec.mode == Normal)
      ensures good ==> rec == if denied > old(denied) || (old(rec.mode) in {SackRecovery, RtoRecovery} && u >= log.rp)
                              then Calm(old(rec)) else old(rec)
      ensures good ==> denied - old(denied) in {0, 1} && (!permitted ==> denied == old(denied))
      ensures good ==>
                (exited <==> denied == old(denied) && old(rec.mode) in {SackRecovery, RtoRecovery} && u >= log.rp)
      ensures applied <==> permitted && Lt(una, flightEnd) && !degraded
      ensures !applied ==> newly == 0 && (at == old(at) || (at == [] && rat == [] && degraded && !old(degraded)))
      ensures rat == old(rat) || rat == []
      ensures !Lt(una, flightEnd) ==> sacked == old(sacked) && rtx == old(rtx)
      ensures good ==> (degraded <==> old(degraded) || denied == old(denied) + 1)
      ensures applied && old(sacked) == [] && count == from + 1 ==> sacked == Cutoff(all[from], una, flightEnd)
      ensures good && applied ==>
                && (forall p :: In(at, p) <==> In(old(at), p) || Reported(all, from, count, u, hd, p))
                && newly == Count(at, u, hd) - Count(old(at), u, hd)
    {
      hide Exact, Lt, Wrap, In, Sane, Sorted, Count, Reported, Brief, Cutoff;
      newly, applied := Absorb(all, from, count, una, flightEnd, permitted, u, good);
      exited := ExitRecovery(una, u);
    }

    /** `tcp_sack_enter_recovery`: a new episode, its end fixed at the flight's end. */
    method EnterRecovery(newMode: Mode, flightEnd: u32, una: u32, mss: nat, ghost u: int)
      requires
        && Sound(u) && una == Wrap(u) && newMode != Normal && mss < 0x10000
        && (sane ==> u < hd && flightEnd == Wrap(hd))
      modifies this`rec, this`log
      ensures Valid(u) && rec.mode == newMode && rec.dupAcks == old(rec.dupAcks)
      ensures log.rp == hd && log.entry == u && log.sent == [] && log.rescues == 0
      ensures Lt(una, flightEnd) ==> rec.pending.kind == Retransmit && rec.pending.sq == una && log.ps == u
      ensures sane ==> Opened(rec, log, newMode, old(rec.dupAcks), u, hd, Smss(mss)) && rec.pipe == old(rec.pipe)
    {
      hide Exact, Lists, Degraded, Sorted, Inside, Increasing, Lt, Wrap, Add32, SeqMin;
      StillAhead(una, Smss(mss), flightEnd);
      if sane {
        ExactBounds(u);
        AddWrap(u, Smss(mss));
        SerialOrder(u, hd);
        MinWrap(u + Smss(mss), hd, u, u + MAX_FLIGHT + 0x10000);
      }
      var end := SeqMin(Add32(una, Smss(mss)), flightEnd);
      var ok, first, upto := CandidateSet(Retransmit, 1, false, una, end, mss, sane, u, Min(u + Smss(mss), hd));
      rec := Recovery(newMode, una, una, flightEnd, rec.pipe, rec.dupAcks, false, if ok then first else rec.pending);
      log := Log(u, u, hd, u, upto, u, [], 0);
      if sane { Entered(u); }
    }

    /** A segment's length ahead is ahead, and so is the nearer of it and the flight's end. */
    lemma StillAhead(una: u32, n: nat, flightEnd: u32)
      requires 0 < n < 0x10000
      ensures Lt(una, flightEnd) ==> Lt(una, SeqMin(Add32(una, n), flightEnd))
    {
    }

    lemma Entered(u: int)
      requires Lists(u) && Degraded(u) && rec.mode != Normal && u < hd
      requires rec.recoveryPoint == Wrap(hd) && rec.rescueRxt == rec.highRxt == Wrap(u)
      requires log.rp == hd && log.hr == log.rr == log.entry == u && log.sent == [] && log.rescues == 0
      requires
        && rec.pending == Candidate(Retransmit, 1, false, Wrap(u), Wrap(log.pe)) && log.ps == u < log.pe <= u + 0x10000
        && log.pe <= hd
      ensures Running(u)
    {
    }

    lemma ExactBounds(u: int)
      requires Exact(u)
      ensures u <= hd + 1 && hd - u <= MAX_FLIGHT && Lists(u) && Degraded(u)
    {
    }

    /** `tcp_sack_schedule_newreno_partial`: the lowest unacknowledged segment again. */
    method SchedulePartial(flightEnd: u32, una: u32, mss: nat, ghost u: int) returns (ok: bool)
      requires Valid(u) && una == Wrap(u) && mss < 0x10000 && (sane ==> flightEnd == Wrap(hd))
      modifies this`rec, this`log
      ensures
        && Valid(u) && rec == old(rec).(pending := rec.pending) && (ok <==> rec.mode == NewReno && Lt(una, flightEnd))
      ensures ok ==> rec.pending.kind == Retransmit && rec.pending.sq == una
      ensures sane ==> (ok <==> rec.mode == NewReno)
      ensures sane && ok ==>
                rec.pending == Foremost(u, hd, Smss(mss)) && log == old(log).(ps := u, pe := Min(u + Smss(mss), hd))
      ensures !ok ==> rec == old(rec) && log == old(log)
    {
      hide Lists, Degraded, Inside, Increasing, Lt, Wrap, Add32, SeqMin;
      if sane {
        ExactBounds(u);
        SerialOrder(u, hd);
      }
      if rec.mode != NewReno || !Lt(una, flightEnd) {
        return false;
      }
      StillAhead(una, Smss(mss), flightEnd);
      if sane {
        AddWrap(u, Smss(mss));
        MinWrap(u + Smss(mss), hd, u, u + MAX_FLIGHT + 0x10000);
      }
      var end := SeqMin(Add32(una, Smss(mss)), flightEnd);
      var _, c, upto := CandidateSet(Retransmit, 1, false, una, end, mss, sane, u, Min(u + Smss(mss), hd));
      rec := rec.(pending := c);
      log := log.(ps := u, pe := upto);
      return true;
    }

    /** A cumulative ACK during NewReno recovery ends it or asks for the next segment. */
    method SettleNewReno(ack: u32, flightEnd: u32, mss: nat, ghost u: int) returns (exited: bool)
      requires Sound(u) && (rec.mode == NewReno || rec.mode == Normal) && ack == Wrap(u) && mss < 0x10000
      requires sane ==> flightEnd == Wrap(hd)
      modifies this`rec, this`log
      ensures
        && Valid(u) && (old(rec.mode) == Normal ==> rec.mode == Normal) && (rec.mode == Normal || rec.mode == NewReno)
      ensures sane && old(rec.mode) == NewReno ==> (exited <==> u >= old(log.rp)) && (rec.mode == Normal <==> exited)
      ensures sane && old(rec.mode) == NewReno ==>
                rec == if exited then old(rec).(mode := Normal, dupAcks := 0, pending := NONE)
                       else old(rec).(pending := Foremost(u, hd, Smss(mss)))
      ensures sane && rec.mode == NewReno ==> log == old(log).(ps := u, pe := Min(u + Smss(mss), hd))
      ensures sane && old(rec.mode) == Normal ==> rec == old(rec).(dupAcks := rec.dupAcks)
      ensures rec.mode == Normal ==> log == old(log)
    {
      hide Lists, Degraded, Inside, Increasing, Lt, Wrap;
      if sane {
        ExactBounds(u);
        if rec.mode == NewReno { SerialOrder(u, log.rp); }
      }
      if !Lt(ack, rec.recoveryPoint) {
        rec := rec.(mode := Normal, dupAcks := 0, pending := NONE);
        return true;
      }
      var _ := SchedulePartial(flightEnd, ack, mss, u);
      return false;
    }

    /** `tcp_sack_on_rto`: forget what the peer reported and start over. */
    method OnRto(flightEnd: u32, una: u32, mss: nat, ghost u: int)
      requires Valid(u) && una == Wrap(u) && mss < 0x10000 && (sane ==> u < hd && flightEnd == Wrap(hd))
      modifies this
      ensures
        && Valid(u) && rec.mode == RtoRecovery && rec.dupAcks == 0 && at == [] && hd == old(hd) && rat == old(rat)
        && !degraded
      ensures sacked == [] && sane == old(sane)
      ensures Lt(una, flightEnd) ==> rec.pending.kind == Retransmit && rec.pending.sq == una && log.ps == u
      ensures sane ==> Opened(rec, log, RtoRecovery, 0, u, hd, Smss(mss))
    {
      hide Exact, Running, Sorted, Inside, Increasing, Lt;
      ClearSacked(u);
      EnterRecovery(RtoRecovery, flightEnd, una, mss, u);
    }

    method ClearSacked(ghost u: int)
      requires Valid(u)
      modifies this`sacked, this`rangeCount, this`at, this`degraded, this`rec
      ensures Sound(u) && at == [] && sacked == [] && !degraded && rec == old(rec).(dupAcks := 0)
    {
      hide Sorted, Inside, Increasing;
      while sacked != []
        invariant rangeCount == |sacked| + |rtx| <= MAX_RANGES
        modifies this`sacked, this`rangeCount
        decreases |sacked|
      {
        rangeCount := Minus(rangeCount, 1);
        sacked := sacked[1..];
      }
      at, degraded, rec := [], false, rec.(dupAcks := 0);
      if sane { SortedNone(u, hd, hd); }
    }

    /** `tcp_sack_cancel_candidate` */
    method Cancel(ghost u: int)
      requires Valid(u)
      modifies this`rec
      ensures Valid(u) && rec == old(rec).(pending := NONE)
    {
      hide Lists, Degraded, Inside, Increasing;
      rec := rec.(pending := NONE);
    }

    /** NextSeg rule 1: the first octet from `start` on that is neither SACKed nor safe. */
    method FirstLost(start: u32, highest: u32, mss: nat, ghost good: bool, ghost s: int, ghost h: int, ghost u: int)
      returns (found: bool, left: u32, right: u32, ghost l: int, ghost r: int)
      requires good ==> Sorted(sacked, at, u, hd) && u <= s <= hd && u <= h <= hd && Inside(at, u, h)
      requires good ==> start == Wrap(s) && highest == Wrap(h)
      ensures good && found ==>
                && left == Wrap(l) && right == Wrap(r) && s <= l < r <= h && Unsacked(at, l, r)
                && (r < h ==> In(at, r))
      ensures good && found ==> FirstOf(at, s, l, hd, Smss(mss))
      ensures good && !found ==> NoneLost(at, s, hd, Smss(mss))
    {
      hide Sorted, In, Lost, Lt, Wrap, Inside, Sub32;
      left, right, l, r := start, highest, s, h;
      ghost var smss := Smss(mss);
      while true
        invariant good ==> left == Wrap(l) && s <= l <= hd
        invariant good ==> forall q :: s <= q < l ==> !LostHole(at, q, hd, smss)
        decreases Sub32(highest, left)
      {
        var from, upto;
        ghost var fl, fr;
        found, from, upto, fl, fr := FindUnsacked(sacked, left, highest, good, at, l, h, u, hd);
        if !found {
          if good {
            forall q | l <= q
              ensures !LostHole(at, q, hd, smss)
            {
              if Lost(at, q, hd, smss) { SafeAbove(sacked, at, q, u, h, hd, smss); }
            }
          }
          return false, left, right, l, r;
        }
        var lost := IsLost(sacked, from, mss, good, at, fl, u, hd);
        if lost {
          return true, from, upto, fl, fr;
        }
        if good { LostFrom(at, l, fl, fr, hd, smss); }
        left, l := upto, fr;
      }
    }

    /** NextSeg rule 4: the highest hole, once per episode. */
    method Rescue(una: u32, mss: nat, ghost good: bool, ghost u: int)
      returns (ok: bool, c: Candidate, ghost ps: int, ghost pe: int)
      requires mss < 0x10000
      requires good ==> Sorted(sacked, at, u, hd) && highData == Wrap(hd) && una == Wrap(u) && u <= hd
      ensures (!ok ==> c == NONE) && (ok ==> Brief(c) && c.kind == Retransmit)
      ensures good ==> (ok <==> exists q :: u <= q < hd && !In(at, q))
      ensures good && ok ==>
                c == Candidate(Retransmit, 4, true, Wrap(ps), Wrap(pe)) && u <= ps < pe <= hd && pe - ps <= Smss(mss)
      ensures good && ok ==>
                && Unsacked(at, ps, pe) && (forall q :: pe <= q < hd ==> In(at, q))
                && BackFilled(at, ps, pe, Smss(mss), u)
    {
      hide Sorted, In, Lt, Wrap, Sub32, Brief;
      if good { WindowSize(sacked, at, u, hd); }
      ok, c, ps, pe := false, NONE, u, u;
      var found, left, right, l, r := FindHighestUnsacked(sacked, una, highData, good, at, u, hd);
      if found {
        if good {
          assert !In(at, l);
          Distance(r, l);
          Distance(r, r - Smss(mss));
          SubWrap(r, Smss(mss));
          SmallWrap(Smss(mss));
          ps := if r - l > Smss(mss) then r - Smss(mss) else l;
        }
        var start := if Sub32(right, left) > Smss(mss) then Sub32(right, Smss(mss)) else left;
        ok, c, pe := CandidateSet(Retransmit, 4, true, start, right, mss, good, ps, r);
      }
    }

    /** `tcp_sack_schedule_next` in SACK recovery with nothing pending: the rules of NextSeg in order. */
    method NextSeg(sndbufEnd: u32, allowNew: bool, una: u32, mss: nat, ghost u: int, ghost se: int)
      returns (ok: bool, c: Candidate, ghost ps: int, ghost pe: int)
      requires Valid(u) && rec.mode == SackRecovery && una == Wrap(u) && mss < 0x10000
      requires sane ==> sndbufEnd == Wrap(se) && hd <= se <= u + MAX_FLIGHT
      ensures (!ok ==> c == NONE) && (ok ==> Brief(c) && c.kind != Nothing && (c.kind == NewData ==> c.sq == highData))
      ensures sane && ok ==> c.sq == Wrap(ps) && c.end == Wrap(pe) && Selected(at, c, ps, pe, Smss(mss), u, hd, se)
      ensures sane ==>
                NextSegOf(at, if log.hr > u then log.hr else u, u, hd, if allowNew then se else hd, log.rescues == 0,
                          Smss(mss), ok, c, ps, pe)
    {
      hide Running, Sorted, In, Lt, Wrap, Inside, LostHole, UnderSacked, NextSegOf, FirstOf, NoneLost, Brief, Filled;
      if sane {
        RunningFacts(u);
        SerialOrder(u, log.hr);
        SerialOrder(hd, se);
      }
      ghost var s, smss := if log.hr > u then log.hr else u, Smss(mss);
      ghost var most, may := if allowNew then se else hd, log.rescues == 0;
      ok, c, ps, pe := false, NONE, u, u;
      var highest, h := HighestSacked(sacked, una, sane, at, u, hd);
      var left := if Lt(una, rec.highRxt) then rec.highRxt else una;
      var found, from, upto, l, r := FirstLost(left, highest, mss, sane, s, h, u);
      if found {
        ps := l;
        ok, c, pe := CandidateSet(Retransmit, 1, false, from, upto, mss, sane, l, r);
        if sane {
          Fills(at, l, r, u, h, smss);
          Rule1(at, s, u, hd, most, may, smss, c, ps, pe);
        }
        return;
      }
      if allowNew && Lt(highData, sndbufEnd) {
        ps := hd;
        ok, c, pe := CandidateSet(NewData, 2, false, highData, sndbufEnd, mss, sane, hd, se);
        if sane { Rule2(at, s, u, hd, se, may, smss, c, pe); }
        return;
      }
      ok, c, ps, pe := Infer(left, highest, una, mss, s, h, u);
    }

    /** NextSeg rules 3 and 4: a hole below something SACKed, else one rescue. */
    method Infer(left: u32, highest: u32, una: u32, mss: nat, ghost s: int, ghost h: int, ghost u: int)
      returns (ok: bool, c: Candidate, ghost ps: int, ghost pe: int)
      requires Valid(u) && rec.mode == SackRecovery && una == Wrap(u) && mss < 0x10000
      requires sane ==> left == Wrap(s) && highest == Wrap(h) && u <= s <= hd && u <= h <= hd
      requires sane ==> Inside(at, u, h) && (h > u ==> In(at, h - 1)) && NoneLost(at, s, hd, Smss(mss))
      ensures (!ok ==> c == NONE) && (ok ==> Brief(c) && c.kind == Retransmit)
      ensures sane && ok ==> c.sq == Wrap(ps) && c.end == Wrap(pe) && Selected(at, c, ps, pe, Smss(mss), u, hd, hd)
      ensures sane ==> NextSegOf(at, s, u, hd, hd, log.rescues == 0, Smss(mss), ok, c, ps, pe)
    {
      hide Running, Sorted, In, Lt, Wrap, Inside, LostHole, UnderSacked, NextSegOf, FirstOf, NoneLost, Brief, Filled;
      ghost var smss, may := Smss(mss), log.rescues == 0;
      ok, c, ps, pe := false, NONE, u, u;
      if sane {
        RunningFacts(u);
        SerialOrder(u, log.rr);
        Under(sacked, at, u, h, hd);
      }
      var found, from, upto, l, r := FindUnsacked(sacked, left, highest, sane, at, s, h, u, hd);
      if found {
        ps := l;
        ok, c, pe := CandidateSet(Retransmit, 3, false, from, upto, mss, sane, l, r);
        if sane {
          Fills(at, l, r, u, h, smss);
          Rule3(at, s, u, hd, may, smss, c, ps, pe);
        }
        return;
      }
      if !Lt(una, rec.rescueRxt) {
        ok, c, ps, pe := Rescue(una, mss, sane, u);
      }
      if sane { Rule4(at, s, u, hd, may, smss, ok, c, ps, pe); }
    }

    lemma RunningFacts(u: int)
      requires Running(u) && rec.mode == SackRecovery
      ensures
        && Sorted(sacked, at, u, hd) && u < hd <= u + MAX_FLIGHT && highData == Wrap(hd) && rec.highRxt == Wrap(log.hr)
      ensures -HALF < log.hr - u < HALF && log.hr <= hd && rec.rescueRxt == Wrap(log.rr) && -HALF < log.rr - u < HALF
      ensures u < log.rr <==> log.rescues != 0
    {
    }

    /** Keep a choice for the transmit path. */
    method Plan(c: Candidate, ghost ps: int, ghost pe: int, ghost u: int)
      requires Valid(u) && rec.mode != Normal && rec.pending == NONE && c.kind != Nothing && Brief(c)
      requires c.kind == NewData ==> c.sq == highData
      requires sane ==>
                 && c.sq == Wrap(ps) && c.end == Wrap(pe) && u <= ps < pe <= ps + 0x10000
                 && (c.kind == Retransmit ==> pe <= hd)
                 && (c.kind == NewData ==> ps == hd && rec.mode == SackRecovery && !c.rescue)
                 && (rec.mode == SackRecovery && c.kind == Retransmit && !c.rescue ==> log.hr <= ps)
                 && (c.rescue ==> rec.mode == SackRecovery && log.rescues == 0)
      modifies this`rec, this`log
      ensures Valid(u) && rec == old(rec).(pending := c) && log == old(log).(ps := ps, pe := pe)
    {
      hide Lists, Degraded, Inside, Increasing, Brief;
      rec := rec.(pending := c);
      log := log.(ps := ps, pe := pe);
    }

    /** `tcp_sack_schedule_next` */
    method ScheduleNext(sndbufEnd: u32, allowNew: bool, una: u32, mss: nat, ghost u: int, ghost se: int)
      returns (ok: bool)
      requires
        && Valid(u) && una == Wrap(u) && mss < 0x10000 && (sane ==> sndbufEnd == Wrap(se) && hd <= se <= u + MAX_FLIGHT)
      modifies this`rec, this`log
      ensures Valid(u) && rec == old(rec).(pending := rec.pending) && log == old(log).(ps := log.ps, pe := log.pe)
      ensures old(rec).pending != NONE || degraded || rec.mode in {Normal, NewReno} ==>
                rec == old(rec) && log == old(log)
      ensures ok <==> rec.pending != NONE
      ensures sane && old(rec).pending == NONE && ok ==>
                && Selected(at, rec.pending, log.ps, log.pe, Smss(mss), u, hd, se)
                && (rec.pending.kind == Retransmit || rec.pending.kind == NewData)
      ensures sane && old(rec).pending == NONE && !degraded && rec.mode == SackRecovery ==>
                NextSegOf(at, if log.hr > u then log.hr else u, u, hd, if allowNew then se else hd, log.rescues == 0,
                          Smss(mss), ok, rec.pending, log.ps, log.pe)
      ensures sane && old(rec).pending == NONE && !degraded && rec.mode == RtoRecovery ==>
                LowHole(at, rec.pending, log.ps, log.pe, Smss(mss), u, hd)
    {
      hide Running, Sorted, In, Lt, Wrap, NextSegOf, Planned;
      if rec.pending.kind != Nothing {
        return true;
      }
      hide Brief;
      ok := false;
      if degraded {
        return false;
      }
      var c;
      ghost var ps, pe;
      ghost var from := if log.hr > u then log.hr else u;
      if rec.mode == RtoRecovery {
        ok, c, ps, pe := LowestHole(una, mss, u);
        if ok {
          RoomFor(mss);
          Plan(c, ps, pe, u);
        }
      } else if rec.mode == SackRecovery {
        ok, c, ps, pe := NextSeg(sndbufEnd, allowNew, una, mss, u, se);
        if ok {
          if sane { StartsAt(at, from, u, hd, if allowNew then se else hd, log.rescues == 0, Smss(mss), c, ps, pe); }
          RoomFor(mss);
          Plan(c, ps, pe, u);
        } else if sane {
          Idle(at, from, u, hd, if allowNew then se else hd, log.rescues == 0, Smss(mss),
               c, ps, pe, rec.pending, log.ps, log.pe);
        }
      }
    }

    /** RTO recovery fills the lowest hole. */
    method LowestHole(una: u32, mss: nat, ghost u: int) returns (ok: bool, c: Candidate, ghost ps: int, ghost pe: int)
      requires Valid(u) && rec.mode == RtoRecovery && una == Wrap(u) && mss < 0x10000
      ensures (!ok ==> c == NONE) && (ok ==> Brief(c) && c.kind == Retransmit)
      ensures sane ==> LowHole(at, c, ps, pe, Smss(mss), u, hd) && (ok <==> exists q :: u <= q < hd && !In(at, q))
    {
      hide Running, Sorted, In, Lt, Wrap, Brief;
      if sane {
        RunningLists(u);
        WindowSize(sacked, at, u, hd);
      }
      ok, c, ps, pe := false, NONE, u, u;
      var found, left, right, l, r := FindUnsacked(sacked, una, highData, sane, at, u, hd, u, hd);
      if found {
        if sane { assert !In(at, l); }
        ps := l;
        ok, c, pe := CandidateSet(Retransmit, 1, false, left, right, mss, sane, l, r);
      }
    }

    lemma RunningLists(u: int)
      requires Running(u)
      ensures Sorted(sacked, at, u, hd) && highData == Wrap(hd) && (rec.mode != Normal ==> u < hd)
    {
    }

    /** `tcp_sack_commit_candidate` for a retransmission: it is marked, and HighRxt
        or the rescue guard moves. */
    method CommitRetransmit(sentEnd: u32, ghost u: int, ghost e: int) returns (ok: bool)
      requires Valid(u) && rec.pending.kind == Retransmit
      requires sane ==> u <= log.ps < e <= log.pe && sentEnd == Wrap(e)
      modifies this
      ensures Valid(u) && sane == old(sane) && hd == old(hd) && highData == old(highData) && rec.pending == NONE
      ensures !ok ==> degraded && at == [] && rat == [] && rec.mode == Normal
      ensures ok ==> at == old(at) && degraded == old(degraded) && rec.mode == old(rec.mode)
      ensures sane ==> denied == old(denied) + if ok then 0 else 1
      ensures log.ps == old(log.ps) && log.pe == old(log.pe)
      ensures rec == if ok then Counted(CommitRec(old(rec), sentEnd), Sub32(sentEnd, old(rec.pending.sq)))
                     else Calm(old(rec))
      ensures sane && ok ==>
                && log == Committed(old(rec), old(log), e)
                && forall p :: In(rat, p) <==> In(old(rat), p) || old(log.ps) <= p < e
    {
      hide Sorted, Inside, Increasing, Lt, Wrap, In, Sub32, Brief, Episode, Recovering, Marked, Planned;
      if sane { PendingFacts(u); }
      var c := rec.pending;
      ghost var rtx0, rat0 := rtx, rat;
      var added;
      rtx, added, rat := RangeInsert(rtx, c.sq, sentEnd, sane, rat, log.ps, e, u, hd);
      if added == UINT32_MAX {
        Degrade();
        if sane { DegradedRunning(u); }
        return false;
      }
      Advance(sentEnd, rtx0, rat0, u, e);
      return true;
    }

    /** HighRxt, the rescue guard and Pipe follow a retransmission already on the list. */
    method Advance(sentEnd: u32, ghost rtx0: seq<Block>, ghost rat0: seq<Span>, ghost u: int, ghost e: int)
      requires Weak() && rec.pending.kind == Retransmit
      requires sane ==>
                 && Lists(u) && Degraded(u) && Marked(rec, log, rtx0, rat0, hd, u) && Recovering(rec, log, hd)
                 && Planned(rec, log, hd) && Episode(rec, log) && rec.mode != Normal && u < log.rp
                 && u <= log.ps < e <= log.pe <= hd && sentEnd == Wrap(e)
                 && log.entry <= log.hr <= hd <= log.entry + HALF - 1
      modifies this`rec, this`log
      ensures Valid(u) && rec.pending == NONE && rec.mode == old(rec.mode) && rec.dupAcks == old(rec.dupAcks)
      ensures rec == Counted(CommitRec(old(rec), sentEnd), Sub32(sentEnd, old(rec.pending.sq)))
      ensures log == if sane then Committed(old(rec), old(log), e) else old(log)
    {
      hide Lists, Degraded, Inside, Increasing, Lt, Wrap, In, Sub32, Episode, Recovering, Marked, Planned;
      var c := rec.pending;
      if sane {
        ListFacts(u, rtx0, rat0);
        SerialOrder(log.hr, e);
        CommitKeeps(rec, log, rtx0, rtx, rat0, rat, hd, u, e, sentEnd);
        log := Committed(rec, log, e);
      }
      if c.rescue {
        rec := rec.(rescueRxt := rec.recoveryPoint);
      } else if Lt(rec.highRxt, sentEnd) {
        rec := rec.(highRxt := sentEnd);
      }
      if rec.mode == SackRecovery {
        rec := rec.(pipe := Add32(rec.pipe, Sub32(sentEnd, c.sq)));
      }
      rec := rec.(pending := NONE);
      if sane { SameButPipe(CommitRec(old(rec), sentEnd), rec, log, rtx, rat, hd, u); }
    }

    lemma ListFacts(u: int, rtx0: seq<Block>, rat0: seq<Span>)
      requires Lists(u) && Marked(rec, log, rtx0, rat0, hd, u)
      ensures Sorted(rtx, rat, u, hd) && hd - u <= MAX_FLIGHT && rec.highRxt == Wrap(log.hr)
    {
    }

    lemma PendingFacts(u: int)
      requires Running(u) && rec.pending.kind == Retransmit
      ensures
        && Sorted(rtx, rat, u, hd) && rec.pending.sq == Wrap(log.ps) && log.pe <= hd <= u + MAX_FLIGHT
        && rec.highRxt == Wrap(log.hr)
      ensures log.entry <= log.hr <= hd <= log.entry + HALF - 1 && Lists(u) && Degraded(u)
      ensures
        && rec.pending.end == Wrap(log.pe) && log.ps < log.pe <= log.ps + 0x10000 && -HALF / 2 < log.ps - u < HALF / 2
      ensures
        && Marked(rec, log, rtx, rat, hd, u) && Recovering(rec, log, hd) && Planned(rec, log, hd) && Episode(rec, log)
      ensures u < log.rp <= hd && highData == Wrap(hd) && rec.mode != Normal
    {
    }

    /** HighData follows new payload; everything else stays. */
    method Extend(sentEnd: u32, ghost u: int, ghost e: int)
      requires Valid(u) && rec.pending.kind != NewData && sentEnd == Wrap(e) && hd <= e < hd + HALF
      requires sane ==> u <= hd && e <= u + MAX_FLIGHT
      modifies this`highData, this`hd
      ensures Valid(u) && hd == e && highData == sentEnd
    {
      hide Sorted, Inside, Increasing, Lt, Wrap, Brief;
      SerialOrder(hd, e);
      if sane {
        RunningWindow(u, e);
      }
      if Lt(highData, sentEnd) {
        highData := sentEnd;
      }
      hd := e;
    }

    lemma RunningWindow(u: int, e: int)
      requires Running(u) && hd <= e <= u + MAX_FLIGHT
      ensures Sorted(sacked, at, u, e) && Sorted(rtx, rat, u, e) && hd - u <= MAX_FLIGHT && highData == Wrap(hd)
    {
    }

    /** `tcp_sack_commit_candidate` for new data. */
    method CommitNew(sentEnd: u32, ghost u: int, ghost e: int)
      requires Valid(u) && rec.pending.kind == NewData && sentEnd == Wrap(e) && hd < e < hd + HALF
      requires sane ==> u <= hd && e <= u + MAX_FLIGHT
      modifies this`rec, this`highData, this`hd
      ensures Valid(u) && hd == e && rec.pending == NONE
      ensures rec == Counted(old(rec).(pending := NONE), Sub32(sentEnd, old(rec.pending.sq)))
    {
      hide Lists, Degraded, Inside, Increasing, Sub32, Lt, Wrap;
      SerialOrder(hd, e);
      if !Lt(rec.pending.sq, sentEnd) {
        return;
      }
      if rec.mode == SackRecovery {
        rec := rec.(pipe := Add32(rec.pipe, Sub32(sentEnd, rec.pending.sq)));
      }
      rec := rec.(pending := NONE);
      Extend(sentEnd, u, e);
    }

    /** `tcp_sack_set_pipe` stores the estimate of RFC 6675. */
    method UpdatePipe(una: u32, flightEnd: u32, mss: nat, ghost u: int) returns (pipe: u32)
      requires Valid(u) && una == Wrap(u) && (sane ==> flightEnd == Wrap(hd))
      modifies this`rec
      ensures Valid(u) && rec == old(rec).(pipe := pipe)
      ensures sane ==> pipe == Pipe(at, rat, log.hr, hd, Smss(mss), u, hd)
    {
      hide Running, Sorted, Inside, Pipe, Wrap;
      if sane { PipeWindow(u); }
      ghost var base := if rtx != [] then log.entry else u;
      pipe := SetPipe(sacked, rtx, una, flightEnd, rec.highRxt, mss, sane, at, rat, u, hd, log.hr, base);
      rec := rec.(pipe := pipe);
      if sane { Tallies(u); }
    }

    lemma PipeWindow(u: int)
      requires Running(u)
      ensures
        var base := if rtx != [] then log.entry else u;
        && Sorted(sacked, at, base, hd) && Sorted(rtx, rat, base, hd) && base <= u && u - hd < HALF && Inside(at, u, hd)
        && (rtx != [] ==> base <= log.hr <= hd) && rec.highRxt == Wrap(log.hr)
    {
    }

    /** Pipe, duplicate ACKs and Limited Transmit do not matter to the books. */
    twostate lemma Tallies(u: int)
      requires old(Running(u)) && rec == old(rec).(pipe := rec.pipe, dupAcks := rec.dupAcks, limited := rec.limited)
      requires unchanged(this`sacked, this`rtx, this`degraded, this`degradedUntil, this`highData, this`at, this`rat,
                         this`hd, this`du, this`log)
      ensures Running(u)
    {
      hide Sorted, Inside, Increasing, Wrap;
    }

    /** Allow or withdraw one Limited Transmit. */
    method SetLimited(on: bool, ghost u: int)
      requires Valid(u)
      modifies this`rec
      ensures Valid(u) && rec == old(rec).(limited := on)
    {
      hide Running;
      rec := rec.(limited := on);
      if sane { Tallies(u); }
    }

    /** Count or forget duplicate ACKs. */
    method SetDups(n: nat, ghost u: int)
      requires Valid(u)
      modifies this`rec
      ensures Valid(u) && rec == old(rec).(dupAcks := n)
    {
      hide Running;
      rec := rec.(dupAcks := n);
      if sane { Tallies(u); }
    }

    /** `tcp_sack_is_lost` of the first unacknowledged octet. */
    method FirstIsLost(una: u32, mss: nat, ghost u: int) returns (lost: bool)
      requires Sound(u) && una == Wrap(u) && (sane ==> u < hd)
      ensures sane ==> (lost <==> Judged(at, u, hd, Smss(mss)))
    {
      if sane { ExactLists(u); }
      lost := IsLost(sacked, una, mss, sane, at, u, u, hd);
    }
  }

  const STRAY := Block(0x7FFF_FFFF, 0x8000_03EA)

  const DUPLICATE := Block(0xFFFF_FFF0, 0)

  /** Two blocks arrive for the flight [0, 1000): a D-SACK, then one far outside that is not sane.
      Unless an allocation is refused, the second goes on the SACKED list as it is. */
  method StrayBlock() returns (s: Scoreboard)
    ensures fresh(s) && s.Sound(0) && !s.sane && s.highData == 1000 && (s.degraded || s.sacked == [STRAY])
  {
    hide Scoreboard.Exact, Sorted;
    s := new Scoreboard(0);
    s.Extend(1000, 0, 1000);
    Stray();
    var _, _, _, _, _ := s.Update(0, 0, [DUPLICATE, STRAY], 1000, true, 0, 0, Span(0, 0));
  }

  lemma Stray()
    ensures
      var all := [DUPLICATE, STRAY];
      IsDsack(all, 0) && !AllSane(all, 0, 0, 1000) && Cutoff(STRAY, 0, 1000) == [STRAY]
  {
    assert !Sane([DUPLICATE, STRAY][1], 0, 1000);
  }

  /** Leaving a D-SACK out loses nothing: what it reports of the flight the second block reports, too. */
  lemma DsackAside(all: seq<Block>, at: seq<Span>, u: int, fe: int, lo: int, hi: int, p: int)
    requires Stands(all, at, lo, hi) && lo <= u <= fe <= hi && fe <= u + MAX_FLIGHT && IsDsack(all, Wrap(u))
    ensures Reports(all[0], u, fe, p) ==> |all| > 1 && Reports(all[1], u, fe, p)
  {
    hide Wrap, Lt, IsDsack;
    DsackMeans(all, at, u, lo, hi);
    assert CodeAt(all[0], at[0]);
    HonestBlock(at[0].left, at[0].right, u, fe);
    if |all| > 1 {
      assert CodeAt(all[1], at[1]);
      HonestBlock(at[1].left, at[1].right, u, fe);
    }
  }

  /** It takes a second block: the first is a D-SACK or sane. */
  lemma FirstSane(all: seq<Block>, u: int, fe: int)
    requires all != [] && u < fe <= u + MAX_FLIGHT && !IsDsack(all, Wrap(u))
    ensures Sane(all[0], u, fe)
  {
    Reach(u, all[0].right);
    SerialOrder(fe, u + Sub32(all[0].right, Wrap(u)));
  }

  lemma TrimNothing(at: seq<Span>, l: int, r: int)
    ensures Trim(at[..0], l, r) == []
  {
  }

  lemma InNone()
    ensures forall p :: !In([], p)
  {
  }

  lemma InBelow(list: seq<Block>, at: seq<Span>, lo: int, hi: int)
    requires Sorted(list, at, lo, hi)
    ensures forall p :: In(at, p) ==> lo <= p < hi
  {
  }

  lemma SortedNone(lo: int, hi: int, top: int)
    requires hi - lo < HALF
    ensures Sorted([], [], lo, hi) && Inside([], lo, top)
  {
  }

  lemma NextReport(blocks: seq<Block>, from: nat, i: nat, u: int, fe: int)
    requires from <= i < |blocks|
    ensures forall p :: Reported(blocks, from, i + 1, u, fe, p) <==>
                Reported(blocks, from, i, u, fe, p) || ClipLeft(blocks[i], u) <= p < ClipRight(blocks[i], fe)
  {
    hide ClipLeft, ClipRight;
    forall p
      ensures Reported(blocks, from, i + 1, u, fe, p) <==>
                Reported(blocks, from, i, u, fe, p) || ClipLeft(blocks[i], u) <= p < ClipRight(blocks[i], fe)
    {
      assert Reports(blocks[i], u, fe, p) <==> ClipLeft(blocks[i], u) <= p < ClipRight(blocks[i], fe);
    }
  }

  lemma CountInsert(was: seq<Span>, at: seq<Span>, l: int, r: int, u: int, fe: int)
    requires u <= l < r <= fe && forall p :: In(at, p) <==> In(was, p) || l <= p < r
    ensures Count(at, u, fe) == Count(was, u, fe) + (r - l - Count(was, l, r))
  {
    CountSplit(at, u, l, fe);
    CountSplit(at, l, r, fe);
    CountSplit(was, u, l, fe);
    CountSplit(was, l, r, fe);
    CountEqual(at, was, u, l);
    CountEqual(at, was, r, fe);
    CountAll(at, l, r);
  }

  lemma SmallSum(a: u32, b: u32)
    requires a + b < WRAP
    ensures Add32(a, b) == a + b
  {
  }

  ghost predicate Unsacked(at: seq<Span>, l: int, r: int) {
    forall p :: l <= p < r ==> !In(at, p)
  }

  /** An octet that is not SACKed and that IsLost gives up. */
  ghost predicate LostHole(at: seq<Span>, q: int, top: int, smss: nat) {
    !In(at, q) && Lost(at, q, top, smss)
  }

  lemma SafeAbove(list: seq<Block>, at: seq<Span>, q: int, u: int, h: int, top: int, smss: nat)
    requires Sorted(list, at, u, top) && Inside(at, u, h) && u <= h && Lost(at, q, top, smss)
    ensures q < h
  {
    if q >= h {
      assert forall p :: q < p < top ==> !In(at, p);
      RunsNone(at, q + 1, top);
      CountNone(at, q + 1, top);
    }
  }

  /** What any choice guarantees: a retransmission is a hole of at most one SMSS. */
  ghost predicate Selected(at: seq<Span>, c: Candidate, ps: int, pe: int, smss: nat, u: int, hd: int, se: int) {
    && u <= ps < pe <= ps + smss
    && (c.kind == Retransmit ==> pe <= hd && Unsacked(at, ps, pe))
    && (c.kind == NewData ==> ps == hd && pe <= se)
  }

  /** A choice from `ps` on is a whole SMSS, or stops at something SACKed. */
  ghost predicate Filled(at: seq<Span>, ps: int, pe: int, smss: nat) {
    pe == ps + smss || In(at, pe)
  }

  /** A hole below the highest SACKed octet ends at a SACKed one. */
  lemma Fills(at: seq<Span>, l: int, r: int, u: int, h: int, smss: nat)
    requires u <= l < r <= h && Unsacked(at, l, r) && In(at, h - 1) && (r < h ==> In(at, r))
    ensures Filled(at, l, Min(r, l + smss), smss)
  {
    hide In;
    assert r < h;
  }

  /** A choice up to `pe` is a whole SMSS, or begins where the flight or a hole does. */
  ghost predicate BackFilled(at: seq<Span>, ps: int, pe: int, smss: nat, u: int) {
    pe - ps == smss || ps == u || In(at, ps - 1)
  }

  /** The lowest hole of the flight, up to one SMSS of it; nothing if there is none. */
  ghost predicate LowHole(at: seq<Span>, c: Candidate, ps: int, pe: int, smss: nat, u: int, hd: int) {
    if exists q :: u <= q < hd && !In(at, q) then
      && c == Candidate(Retransmit, 1, false, Wrap(ps), Wrap(pe)) && u <= ps < pe <= hd && pe <= ps + smss
      && Unsacked(at, ps, pe) && (forall q :: u <= q < ps ==> In(at, q)) && (pe == hd || Filled(at, ps, pe, smss))
    else c == NONE
  }

  /** `s` is the least lost hole from `start` on. */
  ghost predicate FirstOf(at: seq<Span>, start: int, s: int, top: int, smss: nat) {
    start <= s && LostHole(at, s, top, smss) && forall q :: start <= q < s ==> !LostHole(at, q, top, smss)
  }

  ghost predicate NoneLost(at: seq<Span>, start: int, top: int, smss: nat) {
    forall q :: start <= q ==> !LostHole(at, q, top, smss)
  }

  /** A hole below something SACKed. */
  ghost predicate UnderSacked(at: seq<Span>, q: int) {
    !In(at, q) && exists p :: q < p && In(at, p)
  }

  lemma Under(list: seq<Block>, at: seq<Span>, u: int, h: int, hd: int)
    requires Sorted(list, at, u, hd) && Inside(at, u, h) && u <= h && (h > u ==> In(at, h - 1))
    ensures forall q :: u <= q ==> (UnderSacked(at, q) <==> q < h && !In(at, q))
  {
    forall q | u <= q
      ensures UnderSacked(at, q) <==> q < h && !In(at, q)
    {
      if q < h - 1 { assert In(at, h - 1); }
    }
  }

  /** NextSeg of RFC 6675: the first rule that applies makes the choice.  `start`
      is where HighRxt allows retransmissions, `se` ends the unsent data that is
      allowed, `may` says that no rescue was made in this episode.  Where the choice
      starts and where it ends are both fixed. */
  ghost predicate NextSegOf(at: seq<Span>, start: int, u: int, hd: int, se: int, may: bool, smss: nat, ok: bool,
                            c: Candidate, ps: int, pe: int) {
    if exists q :: start <= q && LostHole(at, q, hd, smss) then
      && ok && c.kind == Retransmit && c.rule == 1 && !c.rescue && FirstOf(at, start, ps, hd, smss)
      && Filled(at, ps, pe, smss)
    else if hd < se then
      ok && c.kind == NewData && c.rule == 2 && !c.rescue && ps == hd && pe == Min(se, hd + smss)
    else if exists q :: start <= q && UnderSacked(at, q) then
      && ok && c.kind == Retransmit && c.rule == 3 && !c.rescue && start <= ps && UnderSacked(at, ps)
      && (forall q :: start <= q < ps ==> In(at, q)) && Filled(at, ps, pe, smss)
    else if may && exists q :: u <= q < hd && !In(at, q) then
      && ok && c.kind == Retransmit && c.rule == 4 && c.rescue && (forall q :: pe <= q < hd ==> In(at, q))
      && BackFilled(at, ps, pe, smss, u)
    else
      !ok
  }

  lemma Rule1(at: seq<Span>, start: int, u: int, hd: int, se: int, may: bool, smss: nat, c: Candidate, ps: int,
              pe: int)
    requires c.kind == Retransmit && c.rule == 1 && !c.rescue && FirstOf(at, start, ps, hd, smss)
    requires Filled(at, ps, pe, smss)
    ensures NextSegOf(at, start, u, hd, se, may, smss, true, c, ps, pe)
  {
    hide LostHole, UnderSacked, Filled;
  }

  lemma Rule2(at: seq<Span>, start: int, u: int, hd: int, se: int, may: bool, smss: nat, c: Candidate, pe: int)
    requires NoneLost(at, start, hd, smss) && c.kind == NewData && c.rule == 2 && !c.rescue
    requires hd < se && pe == Min(se, hd + smss)
    ensures NextSegOf(at, start, u, hd, se, may, smss, true, c, hd, pe)
  {
    hide LostHole, UnderSacked;
  }

  lemma Rule3(at: seq<Span>, start: int, u: int, hd: int, may: bool, smss: nat, c: Candidate, ps: int, pe: int)
    requires NoneLost(at, start, hd, smss) && c.kind == Retransmit && c.rule == 3 && !c.rescue
    requires start <= ps && UnderSacked(at, ps) && forall q :: start <= q < ps ==> In(at, q)
    requires Filled(at, ps, pe, smss)
    ensures NextSegOf(at, start, u, hd, hd, may, smss, true, c, ps, pe)
  {
    hide LostHole, UnderSacked, Filled;
  }

  lemma Rule4(at: seq<Span>, start: int, u: int, hd: int, may: bool, smss: nat, ok: bool, c: Candidate, ps: int,
              pe: int)
    requires NoneLost(at, start, hd, smss) && (forall q :: start <= q ==> !UnderSacked(at, q))
    requires ok <==> may && exists q :: u <= q < hd && !In(at, q)
    requires ok ==>
               && c.kind == Retransmit && c.rule == 4 && c.rescue && (forall q :: pe <= q < hd ==> In(at, q))
               && BackFilled(at, ps, pe, smss, u)
    ensures NextSegOf(at, start, u, hd, hd, may, smss, ok, c, ps, pe)
  {
    hide LostHole, UnderSacked, In, BackFilled;
  }

  lemma RoomFor(mss: nat)
    requires mss < 0x10000
    ensures Smss(mss) <= 0x10000
  {
  }

  /** Whatever NextSeg retransmits, rescues aside, lies at or above `start`. */
  lemma StartsAt(at: seq<Span>, start: int, u: int, hd: int, se: int, may: bool, smss: nat, c: Candidate, ps: int,
                 pe: int)
    requires NextSegOf(at, start, u, hd, se, may, smss, true, c, ps, pe)
    ensures c.kind == Retransmit || c.kind == NewData
    ensures c.kind == Retransmit && !c.rescue ==> start <= ps
    ensures c.rescue ==> may && c.kind == Retransmit
  {
  }

  lemma Idle(at: seq<Span>, start: int, u: int, hd: int, se: int, may: bool, smss: nat,
             c: Candidate, ps: int, pe: int, c2: Candidate, ps2: int, pe2: int)
    requires NextSegOf(at, start, u, hd, se, may, smss, false, c, ps, pe)
    ensures NextSegOf(at, start, u, hd, se, may, smss, false, c2, ps2, pe2)
  {
    hide LostHole, UnderSacked, In;
  }

  /** What an episode has done once the pending retransmission left up to `e`. */
  ghost function Committed(rec: Recovery, log: Log, e: int): Log {
    if rec.pending.rescue then log.(rr := log.rp, rescues := log.rescues + 1)
    else log.(hr := if log.hr < e then e else log.hr, sent := log.sent + [Span(log.ps, e)])
  }

  function CommitRec(rec: Recovery, sentEnd: u32): Recovery {
    if rec.pending.rescue then rec.(rescueRxt := rec.recoveryPoint, pending := NONE)
    else if Lt(rec.highRxt, sentEnd) then rec.(highRxt := sentEnd, pending := NONE)
    else rec.(pending := NONE)
  }

  /** In SACK recovery what was sent counts as in flight. */
  ghost function Counted(rec: Recovery, sent: u32): Recovery {
    if rec.mode == SackRecovery then rec.(pipe := (rec.pipe + sent) % 0x1_0000_0000) else rec
  }

  lemma CommitKeeps(rec: Recovery, log: Log, rtx0: seq<Block>, rtx: seq<Block>, rat0: seq<Span>, rat: seq<Span>,
                    hd: int, u: int, e: int, sentEnd: u32)
    requires
      && Marked(rec, log, rtx0, rat0, hd, u) && Recovering(rec, log, hd) && Planned(rec, log, hd) && Episode(rec, log)
    requires
      && rec.pending.kind == Retransmit && u <= log.ps < e <= log.pe && u < log.rp && sentEnd == Wrap(e)
      && hd <= u + MAX_FLIGHT
    requires Sorted(rtx, rat, u, hd)
    requires Lt(rec.highRxt, sentEnd) <==> log.hr < e
    ensures
      var r, g := CommitRec(rec, sentEnd), Committed(rec, log, e);
      Marked(r, g, rtx, rat, hd, u) && Recovering(r, g, hd) && Planned(r, g, hd) && Episode(r, g)
  {
    hide Lt, Wrap;
  }

  lemma SameButPipe(r: Recovery, q: Recovery, log: Log, rtx: seq<Block>, rat: seq<Span>, hd: int, u: int)
    requires
      && q == r.(pipe := q.pipe) && Marked(r, log, rtx, rat, hd, u) && Recovering(r, log, hd) && Planned(r, log, hd)
      && Episode(r, log)
    ensures Marked(q, log, rtx, rat, hd, u) && Recovering(q, log, hd) && Planned(q, log, hd) && Episode(q, log)
  {
    hide Inside, Increasing, Wrap;
  }
}
