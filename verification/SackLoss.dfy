/** Loss detection and the Pipe estimate of section 4 of RFC 6675
    (pro-stack/tcp_sack.c), octet by octet and interval by interval. */
module SackLoss {
  import opened Serial
  import opened Octets
  import opened SackRanges

  const DUP_THRESH := 3
  const DEFAULT_MSS := 1460

  function Smss(mss: nat): nat { if mss != 0 then mss else DEFAULT_MSS }

  /** IsLost of RFC 6675: enough runs, or enough octets, above `p` were SACKed. */
  ghost predicate Lost(at: seq<Span>, p: int, top: int, smss: nat) {
    Runs(at, p + 1, top) >= DUP_THRESH || Count(at, p + 1, top) > (DUP_THRESH - 1) * smss
  }

  /** Nothing above a lost octet makes a lower one safe. */
  lemma LostAntitone(at: seq<Span>, p: int, q: int, top: int, smss: nat)
    requires p <= q && Lost(at, q, top, smss)
    ensures Lost(at, p, top, smss)
  {
    if q + 1 <= top {
      RunsSplit(at, p + 1, q + 1, top);
      CountSplit(at, p + 1, q + 1, top);
    }
  }

  /** The same as the code judges it: an octet that is itself SACKed is counted, too. */
  ghost predicate Judged(at: seq<Span>, p: int, top: int, smss: nat) {
    Runs(at, p + 1, top) >= DUP_THRESH || Count(at, p, top) > (DUP_THRESH - 1) * smss
  }

  /** What a full pass of `tcp_sack_is_lost` counts. */
  ghost predicate LostCount(at: seq<Span>, p: int, top: int, smss: nat) {
    Begins(at, p + 1, top) >= DUP_THRESH || Overlaps(at, p, top) > (DUP_THRESH - 1) * smss
  }

  lemma LostCounted(at: seq<Span>, p: int, top: int, smss: nat)
    requires Spaced(at)
    ensures LostCount(at, p, top, smss) <==> Judged(at, p, top, smss)
  {
    RunsBegins(at, p + 1, top);
    CountOverlaps(at, p, top);
  }

  /** For an octet that is not SACKed the code decides IsLost. */
  lemma JudgedLost(at: seq<Span>, p: int, top: int, smss: nat)
    requires !In(at, p)
    ensures Judged(at, p, top, smss) <==> Lost(at, p, top, smss)
  {
    if p < top {
      CountSplit(at, p, p + 1, top);
      assert Count(at, p, p + 1) == Count(at, p, p) + if In(at, p) then 1 else 0;
    }
  }

  lemma {:induction false} CountedMore(at: seq<Span>, k: nat, p: int, top: int)
    requires k <= |at|
    ensures Begins(at[..k], p + 1, top) <= Begins(at, p + 1, top) && Overlaps(at[..k], p, top) <= Overlaps(at, p, top)
    decreases |at| - k
  {
    if k < |at| {
      CountedMore(at, k + 1, p, top);
      assert at[..k + 1][..k] == at[..k];
    } else {
      assert at[..k] == at;
    }
  }

  /** `tcp_sack_is_lost`; `good` says that the list is a sorted list of intervals. */
  method IsLost(list: seq<Block>, sq: u32, mss: nat, ghost good: bool, ghost at: seq<Span>, ghost p: int,
                ghost lo: int, ghost top: int)
    returns (lost: bool)
    requires good ==> Sorted(list, at, lo, top) && sq == Wrap(p) && lo <= p <= top
    ensures good ==> (lost <==> Judged(at, p, top, Smss(mss)))
    ensures good && !In(at, p) ==> (lost <==> Lost(at, p, top, Smss(mss)))
  {
    hide Spaced, In, Lost, Judged, Overlaps, Begins, Lt, Wrap, Sub32;
    if good {
      LostCounted(at, p, top, Smss(mss));
      if !In(at, p) { JudgedLost(at, p, top, Smss(mss)); }
    }
    var smss := Smss(mss);
    var bytesAbove: nat, discontiguous := 0, 0;
    if good { CountedNothing(at, p, top); }
    for i := 0 to |list|
      invariant good ==> bytesAbove == Overlaps(at[..i], p, top) && discontiguous == Begins(at[..i], p + 1, top)
      invariant discontiguous < DUP_THRESH && bytesAbove <= (DUP_THRESH - 1) * smss
    {
      var r := list[i];
      if good {
        CountedNext(at, i, p, lo, top);
        Compare(r, at[i], lo, top, p, top);
        if p < at[i].right { Distance(at[i].right, if p < at[i].left then at[i].left else p); }
      }
      if !Lt(sq, r.right) {
        continue;
      }
      var left := if Lt(sq, r.left) then r.left else sq;
      if Lt(left, r.right) {
        bytesAbove := bytesAbove + Sub32(r.right, left);
      }
      if Lt(sq, r.left) {
        discontiguous := discontiguous + 1;
      }
      if discontiguous >= DUP_THRESH || bytesAbove > (DUP_THRESH - 1) * smss {
        if good { CountedMore(at, i + 1, p, top); }
        return true;
      }
    }
    if good { assert at[..|list|] == at; }
    return false;
  }

  lemma CountedNothing(at: seq<Span>, p: int, top: int)
    ensures Overlaps(at[..0], p, top) == 0 && Begins(at[..0], p + 1, top) == 0
  {
  }

  lemma CountedNext(at: seq<Span>, i: nat, p: int, lo: int, top: int)
    requires i < |at| && Spaced(at) && Inside(at, lo, top)
    ensures at[i].left < at[i].right && lo <= at[i].left && at[i].right <= top
    ensures Overlaps(at[..i + 1], p, top) == Overlaps(at[..i], p, top) +
                if at[i].right <= p then 0 else at[i].right - if p < at[i].left then at[i].left else p
    ensures Begins(at[..i + 1], p + 1, top) == Begins(at[..i], p + 1, top) + if p < at[i].left then 1 else 0
  {
    assert at[..i + 1][..i] == at[..i];
  }

  /** What one octet adds to Pipe: RFC 6675, SetPipe (a) and (b). */
  ghost function PipeAt(at: seq<Span>, rat: seq<Span>, hr: int, top: int, smss: nat, p: int): nat {
    if In(at, p) then 0
    else (if Lost(at, p, top, smss) then 0 else 1) + (if In(rat, p) && p < hr then 1 else 0)
  }

  /** SetPipe of RFC 6675 over the octets of [lo, hi). */
  ghost function Pipe(at: seq<Span>, rat: seq<Span>, hr: int, top: int, smss: nat, lo: int, hi: int): nat
    decreases hi - lo
  {
    if lo >= hi then 0 else Pipe(at, rat, hr, top, smss, lo, hi - 1) + PipeAt(at, rat, hr, top, smss, hi - 1)
  }

  lemma {:induction false} PipeSplit(at: seq<Span>, rat: seq<Span>, hr: int, top: int, smss: nat, lo: int, mid: int,
                                     hi: int)
    requires lo <= mid <= hi
    ensures Pipe(at, rat, hr, top, smss, lo, hi) ==
            Pipe(at, rat, hr, top, smss, lo, mid) + Pipe(at, rat, hr, top, smss, mid, hi)
    decreases hi - mid
  {
    if mid < hi { PipeSplit(at, rat, hr, top, smss, lo, mid, hi - 1); }
  }

  lemma {:induction false} PipeSacked(at: seq<Span>, rat: seq<Span>, hr: int, top: int, smss: nat, lo: int, hi: int)
    requires forall p :: lo <= p < hi ==> In(at, p)
    ensures Pipe(at, rat, hr, top, smss, lo, hi) == 0
    decreases hi - lo
  {
    if lo < hi { PipeSacked(at, rat, hr, top, smss, lo, hi - 1); }
  }

  /** Without retransmissions Pipe counts no octet that is SACKed, and no other twice. */
  lemma {:induction false} PipeUnmarked(at: seq<Span>, rat: seq<Span>, hr: int, top: int, smss: nat, lo: int, hi: int)
    requires forall p :: lo <= p < hi ==> !In(rat, p)
    ensures lo <= hi ==> Pipe(at, rat, hr, top, smss, lo, hi) + Count(at, lo, hi) <= hi - lo
    decreases hi - lo
  {
    if lo < hi { PipeUnmarked(at, rat, hr, top, smss, lo, hi - 1); }
  }

  /** `seq_min` */
  function SeqMin(a: u32, b: u32): u32 { if Lt(a, b) then a else b }

  function Min(a: int, b: int): int { if a < b then a else b }

  /** In a hole whose octets are lost exactly below `c`. */
  lemma {:induction false} PipeHole(at: seq<Span>, rat: seq<Span>, hr: int, top: int, smss: nat, lo: int, c: int,
                                    hi: int)
    requires lo <= c && forall p :: lo <= p < hi ==> !In(at, p) && (Lost(at, p, top, smss) <==> p < c)
    ensures Pipe(at, rat, hr, top, smss, lo, hi) == Count(rat, lo, Min(hi, hr)) + if c < hi then hi - c else 0
    decreases hi - lo
  {
    if lo < hi { PipeHole(at, rat, hr, top, smss, lo, c, hi - 1); }
  }

  /** `retransmitted_overlap`: octets of [left, right) retransmitted below HighRxt. */
  method RetransmittedOverlap(list: seq<Block>, left: u32, right: u32, highRxt: u32,
                              ghost good: bool, ghost rat: seq<Span>, ghost l: int, ghost r: int, ghost hr: int,
                              ghost lo: int, ghost hi: int)
    returns (bytes: nat)
    requires good ==> Sorted(list, rat, lo, hi) && left == Wrap(l) && right == Wrap(r) && highRxt == Wrap(hr)
    requires good ==> lo <= l <= r <= hi && (list != [] ==> lo <= hr <= hi)
    ensures good ==> bytes == Count(rat, l, Min(r, hr))
  {
    hide Spaced, In, Overlaps, Count, Lt, Wrap, Sub32;
    bytes := 0;
    ghost var e := Min(r, hr);
    if good {
      CountOverlaps(rat, l, e);
      OverlapsNone(rat, l, e);
    }
    for i := 0 to |list|
      invariant good ==> bytes == Overlaps(rat[..i], l, e)
    {
      var x := list[i];
      if good {
        OverlapsNext(rat, i, l, e);
        Bounds(rat, i, lo, hi);
        Compare(x, rat[i], lo, hi, l, r);
      }
      if !Lt(x.left, right) {
        if good { OverlapsAfter(rat, i, l, e); }
        return;
      }
      if !Lt(left, x.right) {
        continue;
      }
      var from := if Lt(x.left, left) then left else x.left;
      var to := if Lt(right, x.right) then right else x.right;
      if good {
        var f, t := if rat[i].left < l then l else rat[i].left, if r < rat[i].right then r else rat[i].right;
        SerialOrder(f, t);
        SerialOrder(f, hr);
        SerialOrder(hr, t);
        SerialOrder(if hr < t then hr else t, f);
      }
      if Lt(from, to) && Lt(from, highRxt) {
        if Lt(highRxt, to) {
          to := highRxt;
        }
        bytes := bytes + Sub32(to, from);
      }
    }
    if good { assert rat[..|list|] == rat; }
  }

  lemma OverlapsNone(at: seq<Span>, l: int, e: int)
    ensures Overlaps(at[..0], l, e) == 0
  {
  }

  lemma Bounds(at: seq<Span>, i: nat, lo: int, hi: int)
    requires i < |at| && Spaced(at) && Inside(at, lo, hi)
    ensures lo <= at[i].left < at[i].right <= hi
  {
  }

  /** Intervals past the end add nothing. */
  lemma OverlapsAfter(at: seq<Span>, i: nat, l: int, e: int)
    requires Spaced(at) && i < |at| && e <= at[i].left
    ensures Overlaps(at, l, e) == Overlaps(at[..i], l, e)
  {
    forall k | i <= k < |at|
      ensures e <= at[k].left
    {
      SpacedOrder(at, i, k);
    }
    OverlapsTouching(at, 0, i, l, e);
  }

  /** `pipe_for_unsacked`: Pipe of one hole, by binary search for the end of loss. */
  method PipeForUnsacked(sacked: seq<Block>, rtx: seq<Block>, left: u32, right: u32, highRxt: u32, mss: nat,
                         ghost good: bool, ghost at: seq<Span>, ghost rat: seq<Span>, ghost l: int, ghost r: int,
                         ghost hr: int, ghost base: int, ghost top: int)
    returns (pipe: nat)
    requires good ==>
               && Sorted(sacked, at, base, top) && Sorted(rtx, rat, base, top) && left == Wrap(l) && right == Wrap(r)
               && highRxt == Wrap(hr)
    requires good ==> base <= l < r <= top && (rtx != [] ==> base <= hr <= top) && forall p :: l <= p < r ==> !In(at, p)
    ensures good ==> pipe == Pipe(at, rat, hr, top, Smss(mss), l, r)
  {
    hide Sorted, In, Count, Lost, Lt, Wrap, Sub32, Add32;
    ghost var smss := Smss(mss);
    if good {
      WindowSize(sacked, at, base, top);
      Distance(r, l);
    }
    pipe := RetransmittedOverlap(rtx, left, right, highRxt, good, rat, l, r, hr, base, top);
    if !Lt(left, right) {
      return;
    }
    var lost := IsLost(sacked, left, mss, good, at, l, base, top);
    if !lost {
      if good {
        LostFrom(at, l, l, r, top, smss);
        PipeHole(at, rat, hr, top, smss, l, l, r);
      }
      return pipe + Sub32(right, left);
    }
    var lo: u32, hi: u32 := 0, Sub32(right, left);
    while lo < hi
      invariant 0 <= lo <= hi && (good ==> hi <= r - l)
      invariant good ==> forall p :: l <= p < l + lo ==> Lost(at, p, top, smss)
      invariant good ==> forall p :: l + hi <= p < r ==> !Lost(at, p, top, smss)
    {
      var mid: u32 := lo + (hi - lo) / 2;
      if good { AddWrap(l, mid); }
      lost := IsLost(sacked, Add32(left, mid), mss, good, at, l + mid, base, top);
      if lost {
        if good { LostUpTo(at, l, l + mid, top, smss); }
        lo := mid + 1;
      } else {
        if good { LostFrom(at, l, l + mid, r, top, smss); }
        hi := mid;
      }
    }
    if good {
      PipeHole(at, rat, hr, top, smss, l, l + lo, r);
      AddWrap(l, lo);
      Distance(r, l + lo);
    }
    return pipe + Sub32(right, Add32(left, lo));
  }

  /** Each octet adds at most two. */
  lemma {:induction false} PipeBound(at: seq<Span>, rat: seq<Span>, hr: int, top: int, smss: nat, lo: int, hi: int)
    ensures Pipe(at, rat, hr, top, smss, lo, hi) <= if lo < hi then 2 * (hi - lo) else 0
    decreases hi - lo
  {
    hide In, Lost;
    if lo < hi { PipeBound(at, rat, hr, top, smss, lo, hi - 1); }
  }

  lemma WindowSize(list: seq<Block>, at: seq<Span>, base: int, top: int)
    requires Sorted(list, at, base, top)
    ensures top - base < HALF && |list| == |at|
  {
  }

  lemma LostUpTo(at: seq<Span>, l: int, m: int, top: int, smss: nat)
    requires Lost(at, m, top, smss)
    ensures forall p :: l <= p <= m ==> Lost(at, p, top, smss)
  {
    forall p | l <= p <= m
      ensures Lost(at, p, top, smss)
    {
      LostAntitone(at, p, m, top, smss);
    }
  }

  lemma LostFrom(at: seq<Span>, l: int, m: int, r: int, top: int, smss: nat)
    requires l <= m && !Lost(at, m, top, smss)
    ensures forall p :: m <= p < r ==> !Lost(at, p, top, smss)
  {
    forall p | m <= p < r
      ensures !Lost(at, p, top, smss)
    {
      if Lost(at, p, top, smss) { LostAntitone(at, m, p, top, smss); }
    }
  }

  /** `tcp_sack_set_pipe`: the estimate is the octet-by-octet sum over the flight. */
  method SetPipe(sacked: seq<Block>, rtx: seq<Block>, una: u32, flightEnd: u32, highRxt: u32, mss: nat,
                 ghost good: bool,
                 ghost at: seq<Span>, ghost rat: seq<Span>, ghost u: int, ghost fe: int, ghost hr: int, ghost base: int)
    returns (pipe: u32)
    requires good ==>
               && Sorted(sacked, at, base, fe) && Sorted(rtx, rat, base, fe) && una == Wrap(u) && flightEnd == Wrap(fe)
               && highRxt == Wrap(hr)
    requires good ==> base <= u && u - fe < HALF && (rtx != [] ==> base <= hr <= fe) && Inside(at, u, fe)
    ensures good ==> pipe == Pipe(at, rat, hr, fe, Smss(mss), u, fe)
  {
    hide Sorted, In, Count, Lost, Lt, Wrap, Sub32, Add32, Pipe, Inside;
    var cursor := una;
    ghost var c, smss := u, Smss(mss);
    var sum: nat := 0;
    if good {
      WindowSize(sacked, at, base, fe);
      PipeEmpty(at, rat, hr, fe, smss, u, u);
      if u > fe { PipeEmpty(at, rat, hr, fe, smss, u, fe); }
      SerialOrder(u, fe);
      PassedNone(sacked, at, base, fe, u);
    }
    var i := 0;
    while i < |sacked| && Lt(cursor, flightEnd)
      invariant 0 <= i <= |sacked|
      invariant good ==> |sacked| == |at| && u <= c && cursor == Wrap(c) && (c <= fe || c == u) && Passed(at, i, c)
      invariant good ==> sum == Pipe(at, rat, hr, fe, smss, u, c) && (Lt(cursor, flightEnd) <==> c < fe)
    {
      var r := sacked[i];
      if good {
        Element(sacked, at, i, base, fe);
        PassedNext(at, i, c, u, fe);
        SerialOrder(c, at[i].left);
        SerialOrder(c, at[i].right);
        SerialOrder(at[i].left, fe);
        SerialOrder(at[i].right, fe);
      }
      if Lt(cursor, r.left) {
        var end := SeqMin(r.left, flightEnd);
        var more := PipeForUnsacked(sacked, rtx, cursor, end, highRxt, mss, good,
                                    at, rat, c, if good then at[i].left else c, hr, base, fe);
        sum := sum + more;
        if good {
          PipeSplit(at, rat, hr, fe, smss, u, c, at[i].left);
          c := at[i].left;
        }
      }
      if Lt(cursor, r.right) {
        cursor := r.right;
        if good {
          PipeSacked(at, rat, hr, fe, smss, c, at[i].right);
          PipeSplit(at, rat, hr, fe, smss, u, c, at[i].right);
          c := at[i].right;
        }
      }
      i := i + 1;
    }
    if Lt(cursor, flightEnd) {
      if good { PassedAll(at, c); }
      var more := PipeForUnsacked(sacked, rtx, cursor, flightEnd, highRxt, mss, good, at, rat, c, fe, hr, base, fe);
      sum := sum + more;
      if good { PipeSplit(at, rat, hr, fe, smss, u, c, fe); }
    }
    if good { PipeBound(at, rat, hr, fe, smss, u, fe); }
    pipe := sum % WRAP;
  }

  lemma PipeEmpty(at: seq<Span>, rat: seq<Span>, hr: int, top: int, smss: nat, lo: int, hi: int)
    requires lo >= hi
    ensures Pipe(at, rat, hr, top, smss, lo, hi) == 0
  {
  }

  /** A left-to-right scan at `c` has everything before interval `i` behind it. */
  ghost predicate Passed(at: seq<Span>, i: nat, c: int) {
    && i <= |at| && Spaced(at)
    && (forall k :: 0 <= k < i ==> at[k].right <= c)
    && (forall k :: i <= k < |at| ==> c <= at[k].left)
  }

  lemma Element(list: seq<Block>, at: seq<Span>, i: nat, lo: int, hi: int)
    requires Sorted(list, at, lo, hi) && i < |list|
    ensures i < |at| && CodeAt(list[i], at[i]) && lo <= at[i].left < at[i].right <= hi
  {
  }

  lemma PassedNext(at: seq<Span>, i: nat, c: int, u: int, fe: int)
    requires Passed(at, i, c) && i < |at|
    ensures c <= at[i].left && Passed(at, i + 1, at[i].right)
    ensures forall p :: c <= p < at[i].left ==> !In(at, p)
    ensures forall p :: at[i].left <= p < at[i].right ==> In(at, p)
  {
    forall k | i < k < |at|
      ensures at[i].right <= at[k].left
    {
    }
    forall p | c <= p < at[i].left
      ensures !In(at, p)
    {
    }
  }

  lemma PassedNone(list: seq<Block>, at: seq<Span>, lo: int, hi: int, c: int)
    requires Sorted(list, at, lo, hi) && (c == lo || Inside(at, c, hi))
    ensures |list| == |at| && Passed(at, 0, c)
  {
  }

  lemma PassedAll(at: seq<Span>, c: int)
    requires Passed(at, |at|, c)
    ensures forall p :: c <= p ==> !In(at, p)
  {
  }

  /** A serial step from `x` towards `z` comes nearer, or passes it. */
  lemma Nearer(x: u32, y: u32, z: u32)
    requires Lt(x, z) && Lt(x, y)
    ensures Lt(y, z) ==> Sub32(z, y) < Sub32(z, x)
    ensures Sub32(z, SeqMin(y, z)) < Sub32(z, x)
  {
  }

  /** `find_unsacked`: the first hole of [left, right); what it finds is always nearer to `right`. */
  method FindUnsacked(sacked: seq<Block>, left: u32, right: u32, ghost good: bool, ghost at: seq<Span>, ghost l: int,
                      ghost r: int, ghost lo: int, ghost hi: int)
    returns (found: bool, outLeft: u32, outRight: u32, ghost ol: int, ghost or: int)
    requires good ==>
               Sorted(sacked, at, lo, hi) && left == Wrap(l) && right == Wrap(r) && lo <= l <= hi && lo <= r <= hi
    ensures found ==> Sub32(right, outRight) < Sub32(right, left)
    ensures good && found ==>
              outLeft == Wrap(ol) && outRight == Wrap(or) && l <= ol < or <= r && (or < r ==> In(at, or))
    ensures good && found ==> (forall p :: l <= p < ol ==> In(at, p)) && (forall p :: ol <= p < or ==> !In(at, p))
    ensures good && !found ==> forall p :: l <= p < r ==> In(at, p)
  {
    hide Spaced, Lt, Wrap, Sub32, SeqMin;
    var cursor := left;
    ghost var c := l;
    found, outLeft, outRight, ol, or := false, left, right, l, r;
    if good { SerialOrder(l, r); }
    var i := 0;
    while i < |sacked| && Lt(cursor, right)
      invariant 0 <= i <= |sacked| && !found && outLeft == left && outRight == right
      invariant Lt(cursor, right) ==> Lt(left, right) && Sub32(right, cursor) <= Sub32(right, left)
      invariant good ==> l <= c <= hi && cursor == Wrap(c) && (Lt(cursor, right) <==> c < r)
      invariant good ==> forall k :: 0 <= k < i ==> at[k].right <= c
      invariant good ==> forall p :: l <= p < c && p < r ==> In(at, p)
    {
      var x := sacked[i];
      if good {
        Bounds(at, i, lo, hi);
        Compare(x, at[i], lo, hi, c, r);
      }
      if !Lt(x.right, cursor) && Lt(cursor, x.left) {
        Nearer(cursor, x.left, right);
        ol, or := c, c;
        if good {
          HoleBefore(at, i, c);
          or := if at[i].left < r then at[i].left else r;
          assert at[i].left < r ==> In(at, at[i].left);
          MinWrap(at[i].left, r, lo, hi);
        }
        return true, cursor, SeqMin(x.left, right), ol, or;
      }
      if Lt(cursor, x.right) {
        Nearer(cursor, x.right, right);
        cursor := x.right;
        if good {
          c := at[i].right;
          SerialOrder(c, r);
        }
      }
      i := i + 1;
    }
    if Lt(cursor, right) {
      Ahead(cursor, right);
      if good { assert forall p :: c <= p ==> !In(at, p); }
      return true, cursor, right, c, r;
    }
  }

  lemma Ahead(x: u32, y: u32)
    requires Lt(x, y)
    ensures Sub32(y, y) < Sub32(y, x)
  {
  }

  lemma MinWrap(x: int, y: int, lo: int, hi: int)
    requires lo <= x <= hi && lo <= y <= hi && hi - lo < HALF
    ensures SeqMin(Wrap(x), Wrap(y)) == Wrap(if x < y then x else y)
  {
    SerialOrder(x, y);
  }

  lemma HoleBefore(at: seq<Span>, i: nat, c: int)
    requires Spaced(at) && i < |at| && c < at[i].left && forall k :: 0 <= k < i ==> at[k].right <= c
    ensures forall p :: c <= p < at[i].left ==> !In(at, p)
  {
    forall k | i <= k < |at|
      ensures at[i].left <= at[k].left
    {
      SpacedOrder(at, i, k);
    }
  }

  /** `highest_sacked` */
  method HighestSacked(sacked: seq<Block>, una: u32, ghost good: bool, ghost at: seq<Span>, ghost u: int, ghost hi: int)
    returns (highest: u32, ghost h: int)
    requires good ==> Sorted(sacked, at, u, hi) && una == Wrap(u)
    ensures good ==>
              && highest == Wrap(h) && u <= h && (sacked != [] ==> h <= hi) && (h > u ==> In(at, h - 1))
              && Inside(at, u, h)
    ensures good && sacked == [] ==> h == u
  {
    hide Spaced, Lt, Wrap, In;
    highest, h := una, u;
    for i := 0 to |sacked|
      invariant good ==> highest == Wrap(h) && u <= h && (i == 0 ==> h == u) && (i > 0 ==> h <= hi)
      invariant good ==> forall k :: 0 <= k < i ==> at[k].right <= h
      invariant good && h > u ==> In(at, h - 1)
    {
      if good {
        Bounds(at, i, u, hi);
        SerialOrder(h, at[i].right);
      }
      if Lt(highest, sacked[i].right) {
        highest := sacked[i].right;
        if good {
          h := at[i].right;
          InAt(at, i, h - 1);
        }
      }
    }
  }

  lemma InAt(at: seq<Span>, i: nat, p: int)
    requires i < |at| && at[i].left <= p < at[i].right
    ensures In(at, p)
  {
  }

  /** `find_highest_unsacked`: the last hole of [left, right). */
  method FindHighestUnsacked(sacked: seq<Block>, left: u32, right: u32, ghost good: bool, ghost at: seq<Span>,
                             ghost l: int, ghost r: int)
    returns (found: bool, outLeft: u32, outRight: u32, ghost ol: int, ghost or: int)
    requires good ==> Sorted(sacked, at, l, r) && left == Wrap(l) && right == Wrap(r) && l - r < HALF
    ensures good && found ==> outLeft == Wrap(ol) && outRight == Wrap(or) && l <= ol < or <= r
    ensures good && found ==>
              && (forall p :: ol <= p < or ==> !In(at, p)) && (forall p :: or <= p < r ==> In(at, p))
              && (l < ol ==> In(at, ol - 1))
    ensures good && !found ==> forall p :: l <= p < r ==> In(at, p)
  {
    if good { WindowSize(sacked, at, l, r); }
    hide Sorted, Spaced, Lt, Wrap, In;
    if good {
      PassedNone(sacked, at, l, r, l);
      SerialOrder(l, r);
    }
    var cursor := left;
    ghost var c := l;
    found, outLeft, outRight, ol, or := false, left, right, l, l;
    var i := 0;
    while i < |sacked| && Lt(cursor, right)
      invariant 0 <= i <= |sacked|
      invariant good ==> l <= c && cursor == Wrap(c) && (c <= r || c == l) && (Lt(cursor, right) <==> c < r)
      invariant good ==> Passed(at, i, c) && l <= ol <= or <= c && (forall p :: or <= p < c ==> In(at, p))
      invariant good && found ==>
                  && outLeft == Wrap(ol) && outRight == Wrap(or) && ol < or && (forall p :: ol <= p < or ==> !In(at, p))
                  && (l < ol ==> In(at, ol - 1))
      invariant good && !found ==> or == l && (c > l ==> In(at, c - 1))
      invariant good && found ==> In(at, c - 1)
    {
      var x := sacked[i];
      if good {
        Element(sacked, at, i, l, r);
        PassedNext(at, i, c, l, r);
        Compare(x, at[i], l, r, c, r);
        SerialOrder(at[i].right, r);
      }
      if Lt(cursor, x.left) {
        outLeft, outRight, found := cursor, SeqMin(x.left, right), true;
        if good {
          ol, or := c, at[i].left;
          c := at[i].left;
        }
      }
      if Lt(cursor, x.right) {
        cursor := x.right;
        if good { c := at[i].right; }
      }
      i := i + 1;
    }
    if Lt(cursor, right) {
      if good { PassedAll(at, c); }
      return true, cursor, right, c, r;
    }
  }
}
