/** Sorted lists of sequence ranges (pro-stack/tcp_sack.c), as sets of octets. */
module SackRanges {
  import opened Serial
  import opened Octets

  /** A half-open range of 32-bit sequence numbers. */
  datatype Block = Block(left: u32, right: u32)

  ghost predicate CodeAt(b: Block, s: Span) {
    b.left == Wrap(s.left) && b.right == Wrap(s.right)
  }

  /** `list` holds the sequence numbers of the intervals `at`. */
  ghost predicate Codes(list: seq<Block>, at: seq<Span>) {
    |list| == |at| && forall i :: 0 <= i < |list| ==> CodeAt(list[i], at[i])
  }

  /** A list as the code keeps it, inside a window of less than half the space. */
  ghost predicate Sorted(list: seq<Block>, at: seq<Span>, lo: int, hi: int) {
    Codes(list, at) && Spaced(at) && Inside(at, lo, hi) && hi - lo < HALF
  }

  /** Everything from `k` to `j` merged with [left, right). */
  ghost function Merge(at: seq<Span>, k: nat, j: nat, left: int, right: int): seq<Span>
    requires k <= j <= |at|
  {
    at[..k] + [Span(Lowest(at, k, j, left), Highest(at, k, j, right))] + at[j..]
  }

  ghost function Lowest(at: seq<Span>, k: nat, j: nat, left: int): int
    requires k <= j <= |at|
  {
    if k < j && at[k].left < left then at[k].left else left
  }

  ghost function Highest(at: seq<Span>, k: nat, j: nat, right: int): int
    requires k <= j <= |at|
  {
    if k < j && at[j - 1].right > right then at[j - 1].right else right
  }

  /** The intervals from `k` to `j` touch [left, right), the ones before do not. */
  ghost predicate Touching(at: seq<Span>, k: nat, j: nat, left: int, right: int) {
    && k <= j <= |at|
    && (forall i :: 0 <= i < k ==> at[i].right < left)
    && (forall i :: k <= i < j ==> at[i].left <= right && left <= at[i].right)
  }

  lemma MergeSpaced(at: seq<Span>, k: nat, j: nat, left: int, right: int, lo: int, hi: int)
    requires Spaced(at) && Inside(at, lo, hi) && Touching(at, k, j, left, right) && lo <= left < right <= hi
    requires j < |at| ==> Highest(at, k, j, right) < at[j].left
    ensures Spaced(Merge(at, k, j, left, right)) && Inside(Merge(at, k, j, left, right), lo, hi)
  {
    var to := Merge(at, k, j, left, right);
    forall i | 0 <= i < |to|
      ensures to[i].left < to[i].right && lo <= to[i].left && to[i].right <= hi
      ensures i < k ==> to[i] == at[i]
      ensures i > k ==> to[i] == at[i - k - 1 + j]
    {
    }
    forall i | 0 <= i < k
      ensures to[i].right < to[k].left
    {
      if k < j { assert at[i].right < at[k].left; }
    }
    forall i | k < i < |to|
      ensures to[k].right < to[i].left
    {
      if j < i - k - 1 + j { assert at[j].right < at[i - k - 1 + j].left; }
    }
  }

  lemma SpacedOrder(at: seq<Span>, i: nat, j: nat)
    requires Spaced(at) && i <= j < |at|
    ensures at[i].left <= at[j].left && at[i].right <= at[j].right
  {
  }

  lemma MergeOnly(at: seq<Span>, k: nat, j: nat, left: int, right: int, p: int)
    requires Touching(at, k, j, left, right) && left < right && In(Merge(at, k, j, left, right), p)
    ensures In(at, p) || left <= p < right
  {
    var to := Merge(at, k, j, left, right);
    var i :| 0 <= i < |to| && to[i].left <= p < to[i].right;
    if i < k {
      assert to[i] == at[i];
    } else if i > k {
      assert to[i] == at[i - k - 1 + j];
    } else if p < left {
      assert at[k].left <= p < at[k].right;
    } else if p >= right {
      assert at[j - 1].left <= p < at[j - 1].right;
    }
  }

  lemma MergeAll(at: seq<Span>, k: nat, j: nat, left: int, right: int, p: int)
    requires Spaced(at) && Touching(at, k, j, left, right) && left < right && (In(at, p) || left <= p < right)
    ensures In(Merge(at, k, j, left, right), p)
  {
    hide Spaced;
    var to := Merge(at, k, j, left, right);
    if left <= p < right {
      assert to[k].left <= p < to[k].right;
    } else {
      var i :| 0 <= i < |at| && at[i].left <= p < at[i].right;
      if i < k {
        assert to[i] == at[i];
      } else if i >= j {
        assert to[i - j + k + 1] == at[i];
      } else {
        SpacedOrder(at, k, i);
        SpacedOrder(at, i, j - 1);
        assert to[k].left <= p < to[k].right;
      }
    }
  }

  /** The merged list holds the old octets and the new ones. */
  lemma MergeIn(at: seq<Span>, k: nat, j: nat, left: int, right: int, p: int)
    requires Spaced(at) && Touching(at, k, j, left, right) && left < right
    ensures In(Merge(at, k, j, left, right), p) <==> In(at, p) || left <= p < right
  {
    hide In, Spaced, Merge;
    if In(Merge(at, k, j, left, right), p) { MergeOnly(at, k, j, left, right, p); }
    if In(at, p) || left <= p < right { MergeAll(at, k, j, left, right, p); }
  }

  /** Only the touching intervals share octets with [left, right). */
  lemma {:induction false} OverlapsTouching(at: seq<Span>, k: nat, j: nat, left: int, right: int)
    requires Spaced(at) && k <= j <= |at|
    requires forall i :: 0 <= i < k || j <= i < |at| ==> at[i].right <= left || right <= at[i].left
    ensures Overlaps(at, left, right) == Overlaps(at[..j], left, right)
    decreases |at| - j
  {
    if j < |at| {
      OverlapsTouching(at, k, j + 1, left, right);
      assert at[..j + 1][..j] == at[..j];
    } else {
      assert at[..j] == at;
    }
  }

  lemma {:induction false} OverlapsBefore(at: seq<Span>, left: int, right: int)
    requires forall i :: 0 <= i < |at| ==> at[i].right <= left
    ensures Overlaps(at, left, right) == 0
  {
    if at != [] { OverlapsBefore(at[..|at| - 1], left, right); }
  }

  lemma OverlapsNext(at: seq<Span>, j: nat, left: int, right: int)
    requires j < |at|
    ensures Overlaps(at[..j + 1], left, right) == Overlaps(at[..j], left, right)
              + Overlap(at[j].left, at[j].right, left, right)
  {
    assert at[..j + 1][..j] == at[..j];
  }

  lemma {:induction false} CountBound(at: seq<Span>, lo: int, hi: int)
    ensures lo <= hi ==> Count(at, lo, hi) <= hi - lo
    decreases hi - lo
  {
    if lo < hi { CountBound(at, lo, hi - 1); }
  }

  /** `range_list_trim` keeps of each interval the part inside [left, right). */
  ghost function Clipped(s: Span, left: int, right: int): Span {
    Span(if s.left < left then left else s.left, if s.right > right then right else s.right)
  }

  ghost function Trim(at: seq<Span>, left: int, right: int): seq<Span> {
    if at == [] then []
    else
      var s := at[|at| - 1];
      var rest := Trim(at[..|at| - 1], left, right);
      if s.left >= right || left >= s.right then rest else rest + [Clipped(s, left, right)]
  }

  lemma {:induction false} TrimIn(at: seq<Span>, left: int, right: int, p: int)
    requires left < right
    ensures In(Trim(at, left, right), p) <==> In(at, p) && left <= p < right
  {
    if at != [] {
      var n := |at| - 1;
      TrimIn(at[..n], left, right, p);
      InLast(at, p);
      var to := Trim(at, left, right);
      if !(at[n].left >= right || left >= at[n].right) {
        assert to[..|to| - 1] == Trim(at[..n], left, right);
        InLast(to, p);
      }
    }
  }

  lemma {:induction false} TrimEnds(at: seq<Span>, left: int, right: int, bound: int)
    requires forall i :: 0 <= i < |at| ==> at[i].right < bound
    ensures forall i :: 0 <= i < |Trim(at, left, right)| ==> Trim(at, left, right)[i].right < bound
  {
    if at != [] { TrimEnds(at[..|at| - 1], left, right, bound); }
  }

  lemma {:induction false} TrimSpaced(at: seq<Span>, left: int, right: int)
    requires Spaced(at) && left < right
    ensures
      var to := Trim(at, left, right);
      Spaced(to) && Inside(to, left, right) && |to| <= |at|
  {
    if at != [] {
      var n := |at| - 1;
      SpacedPrefix(at, n);
      TrimSpaced(at[..n], left, right);
      TrimEnds(at[..n], left, right, at[n].left);
    }
  }

  lemma TrimWithin(at: seq<Span>, left: int, right: int, lo: int, top: int)
    requires Spaced(at) && Inside(at, lo, top) && left < right
    ensures Inside(Trim(at, left, right), left, top)
  {
    TrimSpaced(at, left, right);
    TrimEnds(at, left, right, top + 1);
  }

  lemma SomeInside(list: seq<Block>, at: seq<Span>, lo: int, hi: int, top: int)
    requires Sorted(list, at, lo, hi) && Inside(at, lo, top) && list != []
    ensures lo < top
  {
    assert lo <= at[0].left < at[0].right <= top;
  }

  lemma TrimNext(at: seq<Span>, i: nat, left: int, right: int)
    requires i < |at|
    ensures
      var rest := Trim(at[..i], left, right);
      Trim(at[..i + 1], left, right) ==
        if at[i].left >= right || left >= at[i].right then rest else rest + [Clipped(at[i], left, right)]
  {
    assert at[..i + 1][..i] == at[..i];
  }

  /** The comparisons the code makes between a listed range and [left, right). */
  lemma Compare(b: Block, s: Span, lo: int, hi: int, left: int, right: int)
    requires CodeAt(b, s) && lo <= s.left <= s.right <= hi && lo <= left <= hi && lo <= right <= hi && hi - lo < HALF
    ensures Lt(b.right, Wrap(left)) <==> s.right < left
    ensures Lt(Wrap(left), b.right) <==> left < s.right
    ensures Lt(b.left, Wrap(left)) <==> s.left < left
    ensures Lt(Wrap(left), b.left) <==> left < s.left
    ensures Lt(Wrap(right), b.left) <==> right < s.left
    ensures Lt(b.left, Wrap(right)) <==> s.left < right
    ensures Lt(b.right, Wrap(right)) <==> s.right < right
    ensures Lt(Wrap(right), b.right) <==> right < s.right
  {
    SerialOrder(s.right, left);
    SerialOrder(left, s.right);
    SerialOrder(s.left, left);
    SerialOrder(left, s.left);
    SerialOrder(s.left, right);
    SerialOrder(right, s.left);
    SerialOrder(s.right, right);
    SerialOrder(right, s.right);
  }

  lemma Distance(x: int, y: int)
    requires y <= x < y + HALF
    ensures Lt(Wrap(y), Wrap(x)) <==> y < x
    ensures Sub32(Wrap(x), Wrap(y)) == x - y
  {
    SerialOrder(x, y);
    SerialOrder(y, x);
  }

  /** `range_intersects` */
  method RangeIntersects(list: seq<Block>, left: u32, right: u32, ghost good: bool, ghost at: seq<Span>, ghost l: int,
                         ghost r: int, ghost lo: int, ghost hi: int)
    returns (yes: bool)
    requires good ==> Sorted(list, at, lo, hi) && left == Wrap(l) && right == Wrap(r) && lo <= l <= hi && lo <= r <= hi
    ensures good && l < r ==> (yes <==> exists p :: l <= p < r && In(at, p))
  {
    for i := 0 to |list|
      invariant good ==> forall k :: 0 <= k < i ==> at[k].right <= l
    {
      if good { Compare(list[i], at[i], lo, hi, l, r); }
      if !Lt(list[i].left, right) {
        return false;
      }
      if Lt(left, list[i].right) {
        if good { assert In(at, if at[i].left < l then l else at[i].left); }
        return true;
      }
    }
    return false;
  }
}
