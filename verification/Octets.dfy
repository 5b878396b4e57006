/** Sets of stream octets as sorted lists of intervals, and what counting
    interval by interval has to do with counting octet by octet. */
module Octets {
  datatype Span = Span(left: int, right: int)

  /** Octet `p` is in one of the intervals. */
  ghost predicate In(at: seq<Span>, p: int) {
    exists i :: 0 <= i < |at| && at[i].left <= p < at[i].right
  }

  /** Nonempty intervals in order, with a gap between neighbours. */
  ghost predicate Spaced(at: seq<Span>) {
    && (forall i :: 0 <= i < |at| ==> at[i].left < at[i].right)
    && (forall i, j :: 0 <= i < j < |at| ==> at[i].right < at[j].left)
  }

  ghost predicate Inside(at: seq<Span>, lo: int, hi: int) {
    forall i :: 0 <= i < |at| ==> lo <= at[i].left && at[i].right <= hi
  }

  /** How many octets of [lo, hi) are in the set. */
  ghost function Count(at: seq<Span>, lo: int, hi: int): nat
    decreases hi - lo
  {
    if lo >= hi then 0 else Count(at, lo, hi - 1) + if In(at, hi - 1) then 1 else 0
  }

  /** How many contiguous runs of the set begin in [lo, hi). */
  ghost function Runs(at: seq<Span>, lo: int, hi: int): nat
    decreases hi - lo
  {
    if lo >= hi then 0 else Runs(at, lo, hi - 1) + if In(at, hi - 1) && !In(at, hi - 2) then 1 else 0
  }

  /** Length of the part of [left, right) inside [lo, hi). */
  function Overlap(left: int, right: int, lo: int, hi: int): nat {
    var l := if left > lo then left else lo;
    var r := if right < hi then right else hi;
    if l < r then r - l else 0
  }

  /** The same summed over intervals. */
  ghost function Overlaps(at: seq<Span>, lo: int, hi: int): nat {
    if at == [] then 0
    else Overlaps(at[..|at| - 1], lo, hi) + Overlap(at[|at| - 1].left, at[|at| - 1].right, lo, hi)
  }

  /** How many intervals begin in [lo, hi). */
  ghost function Begins(at: seq<Span>, lo: int, hi: int): nat {
    if at == [] then 0
    else Begins(at[..|at| - 1], lo, hi) + if lo <= at[|at| - 1].left < hi then 1 else 0
  }

  lemma SpacedPrefix(at: seq<Span>, k: nat)
    requires Spaced(at) && k <= |at|
    ensures Spaced(at[..k]) && Spaced(at[k..])
  {
  }

  lemma InLast(at: seq<Span>, p: int)
    requires at != []
    ensures
      var last := at[|at| - 1];
      In(at, p) <==> In(at[..|at| - 1], p) || last.left <= p < last.right
  {
    var n := |at| - 1;
    if In(at, p) {
      var i :| 0 <= i < |at| && at[i].left <= p < at[i].right;
      if i < n { assert at[..n][i] == at[i]; }
    }
    if In(at[..n], p) {
      var i :| 0 <= i < n && at[..n][i].left <= p < at[..n][i].right;
      assert at[i] == at[..n][i];
    }
  }

  /** Counting interval by interval counts octets. */
  lemma {:induction false} CountOverlaps(at: seq<Span>, lo: int, hi: int)
    requires Spaced(at)
    ensures Count(at, lo, hi) == Overlaps(at, lo, hi)
  {
    if at == [] {
      CountNone(at, lo, hi);
    } else {
      var n := |at| - 1;
      CountOverlaps(at[..n], lo, hi);
      CountLast(at, lo, hi);
    }
  }

  lemma {:induction false} CountNone(at: seq<Span>, lo: int, hi: int)
    requires forall p :: lo <= p < hi ==> !In(at, p)
    ensures Count(at, lo, hi) == 0
    decreases hi - lo
  {
    if lo < hi { CountNone(at, lo, hi - 1); }
  }

  lemma {:induction false} CountAll(at: seq<Span>, lo: int, hi: int)
    requires lo <= hi && forall p :: lo <= p < hi ==> In(at, p)
    ensures Count(at, lo, hi) == hi - lo
    decreases hi - lo
  {
    if lo < hi { CountAll(at, lo, hi - 1); }
  }

  lemma {:induction false} CountLast(at: seq<Span>, lo: int, hi: int)
    requires at != [] && Spaced(at)
    ensures
      var n := |at| - 1;
      Count(at, lo, hi) == Count(at[..n], lo, hi) + Overlap(at[n].left, at[n].right, lo, hi)
    decreases hi - lo
  {
    if lo < hi {
      CountLast(at, lo, hi - 1);
      InLast(at, hi - 1);
      if at[|at| - 1].left <= hi - 1 { LastIsNew(at, hi - 1); }
    }
  }

  lemma LastIsNew(at: seq<Span>, p: int)
    requires at != [] && Spaced(at) && at[|at| - 1].left - 1 <= p
    ensures !In(at[..|at| - 1], p)
  {
  }

  lemma {:induction false} CountSplit(at: seq<Span>, lo: int, mid: int, hi: int)
    requires lo <= mid <= hi
    ensures Count(at, lo, hi) == Count(at, lo, mid) + Count(at, mid, hi)
    decreases hi - mid
  {
    if mid < hi { CountSplit(at, lo, mid, hi - 1); }
  }

  lemma {:induction false} CountEqual(at: seq<Span>, bt: seq<Span>, lo: int, hi: int)
    requires forall p :: lo <= p < hi ==> (In(at, p) <==> In(bt, p))
    ensures Count(at, lo, hi) == Count(bt, lo, hi)
    decreases hi - lo
  {
    if lo < hi { CountEqual(at, bt, lo, hi - 1); }
  }

  /** A set that gains an octet and loses none has more. */
  lemma {:induction false} CountGrows(at: seq<Span>, was: seq<Span>, p: int, lo: int, hi: int)
    requires forall q :: lo <= q < hi && In(was, q) ==> In(at, q)
    ensures Count(at, lo, hi) >= Count(was, lo, hi) + if lo <= p < hi && In(at, p) && !In(was, p) then 1 else 0
    decreases hi - lo
  {
    if lo < hi { CountGrows(at, was, p, lo, hi - 1); }
  }

  /** Runs of the set are the intervals, because neighbours are apart. */
  lemma {:induction false} RunsBegins(at: seq<Span>, lo: int, hi: int)
    requires Spaced(at)
    ensures Runs(at, lo, hi) == Begins(at, lo, hi)
  {
    if at == [] {
      RunsNone(at, lo, hi);
    } else {
      RunsBegins(at[..|at| - 1], lo, hi);
      RunsLast(at, lo, hi);
    }
  }

  lemma {:induction false} RunsNone(at: seq<Span>, lo: int, hi: int)
    requires forall p :: lo <= p < hi ==> !In(at, p)
    ensures Runs(at, lo, hi) == 0
    decreases hi - lo
  {
    if lo < hi { RunsNone(at, lo, hi - 1); }
  }

  lemma {:induction false} RunsLast(at: seq<Span>, lo: int, hi: int)
    requires at != [] && Spaced(at)
    ensures
      var n := |at| - 1;
      Runs(at, lo, hi) == Runs(at[..n], lo, hi) + if lo <= at[n].left < hi then 1 else 0
    decreases hi - lo
  {
    if lo < hi {
      RunsLast(at, lo, hi - 1);
      InLast(at, hi - 1);
      InLast(at, hi - 2);
      if at[|at| - 1].left - 1 <= hi - 1 { LastIsNew(at, hi - 1); }
      if at[|at| - 1].left - 1 <= hi - 2 { LastIsNew(at, hi - 2); }
    }
  }

  lemma {:induction false} RunsSplit(at: seq<Span>, lo: int, mid: int, hi: int)
    requires lo <= mid <= hi
    ensures Runs(at, lo, hi) == Runs(at, lo, mid) + Runs(at, mid, hi)
    decreases hi - mid
  {
    if mid < hi { RunsSplit(at, lo, mid, hi - 1); }
  }
}
