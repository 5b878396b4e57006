/** Ordered, disjoint pieces of a byte stream at unbounded positions. */
module Reassembly {
  import opened Serial

  datatype Piece = Piece(pos: int, data: seq<byte>, fin: bool) {
    function End(): int { pos + |data| }

    predicate Has(p: int, b: byte) { pos <= p < End() && data[p - pos] == b }
  }

  /** What is left of a piece after its first `n` bytes. */
  function Trimmed(x: Piece, n: nat): Piece
    requires n <= |x.data|
  {
    Piece(x.pos + n, x.data[n..], x.fin)
  }

  /** Some piece holds byte `b` at position `p`. */
  ghost predicate Has(l: seq<Piece>, p: int, b: byte) {
    exists i :: 0 <= i < |l| && l[i].Has(p, b)
  }

  ghost predicate Covered(l: seq<Piece>, p: int) {
    exists i :: 0 <= i < |l| && l[i].pos <= p < l[i].End()
  }

  /** Some piece carries a FIN at `e`. */
  ghost predicate FinAt(l: seq<Piece>, e: int) {
    exists i :: 0 <= i < |l| && l[i].fin && l[i].End() == e
  }

  ghost predicate SameFins(l: seq<Piece>, m: seq<Piece>) {
    forall e :: FinAt(l, e) <==> FinAt(m, e)
  }

  /** Pieces lie one behind the other; only a bare FIN can share its start with the next. */
  predicate Ordered(l: seq<Piece>) {
    forall i, j :: 0 <= i < j < |l| ==> l[i].End() <= l[j].pos
  }

  /** A piece has payload or a FIN. */
  predicate Solid(x: Piece) { x.data != [] || x.fin }

  predicate AllSolid(l: seq<Piece>) {
    forall i :: 0 <= i < |l| ==> Solid(l[i])
  }

  predicate Within(l: seq<Piece>, lo: int, hi: int) {
    forall i :: 0 <= i < |l| ==> lo <= l[i].pos && l[i].End() <= hi
  }

  function TotalBytes(l: seq<Piece>): nat {
    if l == [] then 0 else TotalBytes(l[..|l| - 1]) + |l[|l| - 1].data|
  }

  function Placed<T>(l: seq<T>, k: nat, x: T): seq<T>
    requires k <= |l|
  {
    l[..k] + [x] + l[k..]
  }

  lemma PlacedAt<T>(l: seq<T>, k: nat, x: T, i: nat)
    requires k <= |l| && i <= |l|
    ensures Placed(l, k, x)[i] == if i < k then l[i] else if i == k then x else l[i - 1]
  {
  }

  function Removed<T>(l: seq<T>, k: nat): seq<T>
    requires k < |l|
  {
    l[..k] + l[k + 1..]
  }

  lemma {:induction false} TotalSplit(a: seq<Piece>, b: seq<Piece>)
    ensures TotalBytes(a + b) == TotalBytes(a) + TotalBytes(b)
  {
    if b == [] {
      assert a + b == a;
    } else {
      var n := |b| - 1;
      assert (a + b)[..|a + b| - 1] == a + b[..n];
      TotalSplit(a, b[..n]);
    }
  }

  lemma TotalPlaced(l: seq<Piece>, k: nat, x: Piece)
    requires k <= |l|
    ensures TotalBytes(Placed(l, k, x)) == TotalBytes(l) + |x.data|
  {
    assert l == l[..k] + l[k..];
    TotalSplit(l[..k], l[k..]);
    TotalSplit(l[..k], [x]);
    TotalSplit(l[..k] + [x], l[k..]);
    assert [x][..0] == [];
  }

  lemma TotalRemoved(l: seq<Piece>, k: nat)
    requires k < |l|
    ensures TotalBytes(l) == TotalBytes(Removed(l, k)) + |l[k].data|
  {
    assert Placed(Removed(l, k), k, l[k]) == l;
    TotalPlaced(Removed(l, k), k, l[k]);
  }

  /** Inserting one piece adds exactly its bytes and its FIN. */
  lemma HasPlaced(l: seq<Piece>, k: nat, x: Piece, p: int, b: byte)
    requires k <= |l|
    ensures Has(Placed(l, k, x), p, b) <==> Has(l, p, b) || x.Has(p, b)
  {
    var m := Placed(l, k, x);
    if Has(l, p, b) {
      var i :| 0 <= i < |l| && l[i].Has(p, b);
      assert m[if i < k then i else i + 1] == l[i];
    }
    if x.Has(p, b) { assert m[k] == x; }
    if Has(m, p, b) {
      var i :| 0 <= i < |m| && m[i].Has(p, b);
      if i != k { assert m[i] == l[if i < k then i else i - 1]; }
    }
  }

  lemma FinPlaced(l: seq<Piece>, k: nat, x: Piece, e: int)
    requires k <= |l|
    ensures FinAt(Placed(l, k, x), e) <==> FinAt(l, e) || (x.fin && x.End() == e)
  {
    var m := Placed(l, k, x);
    if FinAt(l, e) {
      var i :| 0 <= i < |l| && l[i].fin && l[i].End() == e;
      assert m[if i < k then i else i + 1] == l[i];
    }
    if x.fin { assert m[k] == x; }
    if FinAt(m, e) {
      var i :| 0 <= i < |m| && m[i].fin && m[i].End() == e;
      if i != k { assert m[i] == l[if i < k then i else i - 1]; }
    }
  }

  lemma HasRemoved(l: seq<Piece>, k: nat, p: int, b: byte)
    requires k < |l|
    ensures Has(l, p, b) <==> Has(Removed(l, k), p, b) || l[k].Has(p, b)
  {
    assert Placed(Removed(l, k), k, l[k]) == l;
    HasPlaced(Removed(l, k), k, l[k], p, b);
  }

  lemma CoveredHas(l: seq<Piece>, p: int)
    ensures Covered(l, p) <==> exists b :: Has(l, p, b)
  {
    if Covered(l, p) {
      var i :| 0 <= i < |l| && l[i].pos <= p < l[i].End();
      assert l[i].Has(p, l[i].data[p - l[i].pos]);
      assert Has(l, p, l[i].data[p - l[i].pos]);
    }
    if exists b :: Has(l, p, b) {
      var b :| Has(l, p, b);
      var i :| 0 <= i < |l| && l[i].Has(p, b);
      assert l[i].pos <= p < l[i].End();
    }
  }

  /** The first `k` pieces end by `p`. */
  ghost predicate Behind(l: seq<Piece>, k: nat, p: int)
    requires k <= |l|
  {
    forall i :: 0 <= i < k ==> l[i].End() <= p
  }

  /** `x` belongs between positions `k - 1` and `k`. */
  ghost predicate Fits(l: seq<Piece>, k: nat, x: Piece) {
    && k <= |l| && Behind(l, k, x.pos)
    && (forall i :: k <= i < |l| ==> x.End() <= l[i].pos && x.pos < l[i].pos)
  }

  /** Linking `x` at `k` is not a no-op: it holds something and does not repeat the key at `k`. */
  predicate Adds(l: seq<Piece>, k: nat, x: Piece) {
    (x.data != [] || x.fin) && (k < |l| ==> l[k].pos != x.pos)
  }

  lemma FitsThere(l: seq<Piece>, k: nat, x: Piece)
    requires Ordered(l) && k <= |l| && Adds(l, k, x) && Behind(l, k, x.pos)
    requires k < |l| ==> x.End() <= l[k].pos
    ensures Fits(l, k, x)
  {
    forall i | k <= i < |l|
      ensures x.End() <= l[i].pos && x.pos < l[i].pos
    {
      if k < i { assert l[k].End() <= l[i].pos; }
    }
  }

  lemma PlacedKeeps(l: seq<Piece>, k: nat, x: Piece, lo: int, hi: int)
    requires Ordered(l) && AllSolid(l) && Within(l, lo, hi)
    requires Fits(l, k, x) && Solid(x) && lo <= x.pos && x.End() <= hi
    ensures Ordered(Placed(l, k, x)) && AllSolid(Placed(l, k, x)) && Within(Placed(l, k, x), lo, hi)
  {
  }

  lemma PlacedSolid(l: seq<Piece>, k: nat, x: Piece, lo: int, hi: int)
    requires AllSolid(l) && Within(l, lo, hi) && k <= |l| && Solid(x) && lo <= x.pos && x.End() <= hi
    ensures AllSolid(Placed(l, k, x)) && Within(Placed(l, k, x), lo, hi)
  {
  }

  /** `y` starts with the first `k` pieces of `rest` and before the others. */
  ghost predicate Leads(y: Piece, rest: seq<Piece>, k: nat) {
    && k <= |rest| && (forall i :: 0 <= i < k ==> rest[i].pos == y.pos)
    && (forall i :: k <= i < |rest| ==> y.pos < rest[i].pos)
  }

  /** Cutting the first piece keeps it in front; a bare FIN may tie with what follows. */
  lemma TrimLeads(l: seq<Piece>, n: nat) returns (k: nat)
    requires l != [] && Ordered(l) && n <= |l[0].data|
    ensures Leads(Trimmed(l[0], n), l[1..], k) && (n < |l[0].data| ==> k == 0)
  {
    var rest, y := l[1..], Trimmed(l[0], n);
    forall i | 0 <= i < |rest|
      ensures y.End() <= rest[i].pos
    {
      assert rest[i] == l[i + 1];
    }
    k := 0;
    while k < |rest| && rest[k].pos == y.pos
      invariant k <= |rest| && (forall i :: 0 <= i < k ==> rest[i].pos == y.pos) && (y.data != [] ==> k == 0)
    {
      k := k + 1;
    }
    forall i | k <= i < |rest|
      ensures y.pos < rest[i].pos
    {
      if k < i { assert rest[k] == l[k + 1] && rest[i] == l[i + 1] && rest[k].pos <= rest[i].pos; }
    }
  }

  /** `l` is `was` plus every byte of `x` below `upto` that `was` lacked;
      bytes that were already held win. */
  ghost predicate Merged(was: seq<Piece>, l: seq<Piece>, x: Piece, upto: int) {
    forall p, b :: Has(l, p, b) <==> Has(was, p, b) || (p < upto && x.Has(p, b) && !Covered(was, p))
  }

  /** The union without any order: `l` holds what `was` held, nothing but that and `x`, and all of
      `x` below `upto`. */
  ghost predicate Blended(was: seq<Piece>, l: seq<Piece>, x: Piece, upto: int) {
    && (forall p, b :: Has(was, p, b) ==> Has(l, p, b))
    && (forall p, b :: Has(l, p, b) ==> Has(was, p, b) || x.Has(p, b))
    && (forall p :: x.pos <= p < upto ==> Covered(l, p))
    && (forall e :: FinAt(was, e) ==> FinAt(l, e))
    && (forall e :: FinAt(l, e) ==> FinAt(was, e) || (x.fin && e == x.End()))
  }

  lemma BlendedNone(l: seq<Piece>, x: Piece)
    ensures Blended(l, l, x, x.pos)
  {
  }

  /** `y` is a part of `x` from `p` to `q`, and all or nothing of its FIN. */
  lemma BlendedMore(was: seq<Piece>, l: seq<Piece>, x: Piece, k: nat, y: Piece, q: int)
    requires Blended(was, l, x, y.pos) && k <= |l| && x.pos <= y.pos && y.End() == q <= x.End()
    requires y.data == x.data[y.pos - x.pos..q - x.pos] && (y.fin ==> x.fin && q == x.End())
    ensures Blended(was, Placed(l, k, y), x, q)
  {
    var m := Placed(l, k, y);
    forall p, b
      ensures Has(m, p, b) <==> Has(l, p, b) || y.Has(p, b)
    {
      HasPlaced(l, k, y, p, b);
    }
    forall e
      ensures FinAt(m, e) <==> FinAt(l, e) || (y.fin && y.End() == e)
    {
      FinPlaced(l, k, y, e);
    }
    forall p | x.pos <= p < q
      ensures Covered(m, p)
    {
      if p < y.pos {
        CoveredHas(l, p);
        var b :| Has(l, p, b);
        assert Has(m, p, b);
      } else {
        assert y.Has(p, y.data[p - y.pos]);
        assert Has(m, p, y.data[p - y.pos]);
      }
      CoveredHas(m, p);
    }
  }

  /** What a piece of `l` holds already. */
  lemma BlendedSkip(was: seq<Piece>, l: seq<Piece>, x: Piece, p: int, k: nat, q: int)
    requires Blended(was, l, x, p) && k < |l| && l[k].pos <= p && q <= l[k].End()
    ensures Blended(was, l, x, q)
  {
  }

  /** A merge in progress: everything before `k` is done, the rest of `was`
      from `j` on is still in place. */
  ghost predicate MergeAt(was: seq<Piece>, l: seq<Piece>, x: Piece, p: int, k: nat, j: nat) {
    && k <= |l| && j <= |was| && l[k..] == was[j..]
    && Behind(l, k, p) && Behind(was, j, p) && Merged(was, l, x, p) && SameFins(l, was)
  }

  lemma MergeFacts(was: seq<Piece>, l: seq<Piece>, x: Piece, p: int, k: nat, j: nat)
    requires MergeAt(was, l, x, p, k, j)
    ensures k <= |l| && Behind(l, k, p) && Merged(was, l, x, p) && |l| - k == |was| - j && j <= |was|
    ensures SameFins(l, was)
  {
    assert |l[k..]| == |was[j..]|;
  }

  lemma MergeStart(was: seq<Piece>, x: Piece, k: nat)
    requires k <= |was| && Behind(was, k, x.pos)
    ensures MergeAt(was, was, x, x.pos, k, k)
  {
  }

  /** A piece of `was` that reaches beyond `p` covers what lies under it. */
  lemma MergeSkip(was: seq<Piece>, l: seq<Piece>, x: Piece, p: int, k: nat, j: nat, q: int)
    requires MergeAt(was, l, x, p, k, j) && k < |l| && l[k].pos <= p <= q <= l[k].End()
    ensures Merged(was, l, x, q)
    ensures q == l[k].End() ==> MergeAt(was, l, x, q, k + 1, j + 1)
  {
    assert l[k] == l[k..][0] == was[j..][0] == was[j];
    forall r, b
      ensures Has(l, r, b) <==> Has(was, r, b) || (r < q && x.Has(r, b) && !Covered(was, r))
    {
      if p <= r < q { assert was[j].pos <= r < was[j].End(); }
    }
    if q == l[k].End() {
      assert l[k + 1..] == l[k..][1..] == was[j..][1..] == was[j + 1..];
    }
  }

  /** A piece that ends by `p` is already behind. */
  lemma MergePass(was: seq<Piece>, l: seq<Piece>, x: Piece, p: int, k: nat, j: nat)
    requires MergeAt(was, l, x, p, k, j) && k < |l| && l[k].End() <= p
    ensures MergeAt(was, l, x, p, k + 1, j + 1)
  {
    assert l[k] == l[k..][0] == was[j..][0] == was[j];
    assert l[k + 1..] == l[k..][1..] == was[j..][1..] == was[j + 1..];
  }

  /** Linking the part of `x` in front of the next piece. */
  lemma MergeLink(was: seq<Piece>, l: seq<Piece>, x: Piece, p: int, k: nat, j: nat, y: Piece)
    requires MergeAt(was, l, x, p, k, j) && Ordered(was) && y.pos == p && y.data != [] && !y.fin
    requires x.pos <= p && y.End() <= x.End() && y.data == x.data[p - x.pos..y.End() - x.pos]
    requires k < |l| ==> y.End() <= l[k].pos
    ensures MergeAt(was, Placed(l, k, y), x, y.End(), k + 1, j)
  {
    var m := Placed(l, k, y);
    assert m[k + 1..] == l[k..];
    forall e
      ensures FinAt(m, e) <==> FinAt(was, e)
    {
      FinPlaced(l, k, y, e);
    }
    forall r, b
      ensures Has(m, r, b) <==> Has(was, r, b) || (r < y.End() && x.Has(r, b) && !Covered(was, r))
    {
      HasPlaced(l, k, y, r, b);
      if y.pos <= r < y.End() { GapUncovered(was, j, y, r, l[k..]); }
    }
    forall i | 0 <= i < k + 1
      ensures m[i].End() <= y.End()
    {
      PlacedAt(l, k, y, i);
    }
  }

  lemma GapUncovered(was: seq<Piece>, j: nat, y: Piece, r: int, rest: seq<Piece>)
    requires Ordered(was) && j <= |was| && was[j..] == rest && Behind(was, j, y.pos)
    requires rest != [] ==> y.End() <= rest[0].pos
    requires y.pos <= r < y.End()
    ensures !Covered(was, r)
  {
    forall i | 0 <= i < |was|
      ensures !(was[i].pos <= r < was[i].End())
    {
      if i >= j {
        assert rest[0] == was[j];
        assert j < i ==> was[j].End() <= was[i].pos;
      }
    }
  }

  /** The part of `x` inside [lo, hi); a FIN survives if all payload before it does. */
  function Clip(x: Piece, lo: int, hi: int): Piece {
    var l := if x.pos < lo then lo else x.pos;
    if l >= hi || x.End() < l then Piece(l, [], false)
    else
      var h := if x.End() < hi then x.End() else hi;
      Piece(l, x.data[l - x.pos..h - x.pos], x.fin && x.End() <= hi)
  }

  /** The part of a segment inside the window `[lo, hi)`, its FIN included. */
  ghost function Windowed(s: Piece, lo: int, hi: int): Piece {
    var y := Clip(s, lo, hi);
    Piece(y.pos, y.data, y.fin && s.End() < hi)
  }

  /** Clipping first on the right and then to the window changes nothing. */
  lemma ClipAgain(s: Piece, t: Piece, lo: int, hi: int)
    requires lo <= hi && t.pos == s.pos && s.pos <= hi
    requires t.data == if s.End() > hi then s.data[..hi - s.pos] else s.data
    requires t.fin == (s.fin && s.End() < hi)
    ensures Clip(t, lo, hi) == Windowed(s, lo, hi)
    ensures s.pos == lo ==> Clip(t, lo, hi) == t
  {
    hide Clip;
    var l := if s.pos < lo then lo else s.pos;
    ClipCases(s, lo, hi, l);
    ClipCases(t, lo, hi, l);
    if l < hi && l <= s.End() && s.End() > hi {
      CutTwice(s.data, hi - s.pos, l - s.pos);
    }
  }

  lemma ClipCases(x: Piece, lo: int, hi: int, l: int)
    requires l == (if x.pos < lo then lo else x.pos)
    ensures l >= hi || x.End() < l ==> Clip(x, lo, hi) == Piece(l, [], false)
    ensures l < hi && l <= x.End() <= hi ==> Clip(x, lo, hi) == Piece(l, x.data[l - x.pos..], x.fin)
    ensures l < hi < x.End() ==> Clip(x, lo, hi) == Piece(l, x.data[l - x.pos..hi - x.pos], false)
  {
    if l < hi && l <= x.End() <= hi {
      var h := if x.End() < hi then x.End() else hi;
      assert h - x.pos == |x.data|;
    }
  }

  /** What lies in front of `lo` does not matter. */
  lemma ClipFront(s: Piece, lo: int, hi: int)
    requires s.pos <= lo <= hi
    ensures lo - s.pos <= |s.data| ==> Clip(s, lo, hi) == Clip(Piece(lo, s.data[lo - s.pos..], s.fin), lo, hi)
    ensures lo - s.pos > |s.data| || (lo - s.pos == |s.data| && !s.fin) ==> Clip(s, lo, hi) == Piece(lo, [], false)
  {
    hide Clip;
    ClipCases(s, lo, hi, lo);
    if lo - s.pos <= |s.data| {
      var t := Piece(lo, s.data[lo - s.pos..], s.fin);
      ClipCases(t, lo, hi, lo);
      if s.End() > hi { CutTail(s.data, lo - s.pos, hi - s.pos); }
    }
  }

  lemma CutTail(q: seq<byte>, m: nat, n: nat)
    requires m <= n <= |q|
    ensures q[m..][..n - m] == q[m..n]
  {
  }

  lemma CutTwice(q: seq<byte>, n: nat, m: nat)
    requires m <= n <= |q|
    ensures q[..n][m..] == q[m..n]
  {
  }

  lemma ClipFits(t: Piece, lo: int, hi: int)
    requires lo <= hi && Clip(t, lo, hi) == t
    ensures lo <= t.pos ==> t.End() <= hi || t.data == []
  {
  }

  /** Clipping keeps exactly the bytes inside the bounds. */
  lemma ClipHas(x: Piece, lo: int, hi: int, p: int, b: byte)
    ensures Clip(x, lo, hi).Has(p, b) <==> x.Has(p, b) && lo <= p < hi
  {
    var y := Clip(x, lo, hi);
    if y.pos <= p < y.End() { assert y.data[p - y.pos] == x.data[p - x.pos]; }
  }

  /** The FIN of `x` is noted: no held octet follows it, or its last octet is new. */
  ghost predicate FinKept(was: seq<Piece>, x: Piece) {
    !Covered(was, x.End()) || (x.data != [] && !Covered(was, x.End() - 1))
  }

  /** `l` carries the FINs of `was`, and that of `x` if it is noted. */
  ghost predicate FinMerged(was: seq<Piece>, l: seq<Piece>, x: Piece) {
    forall e :: FinAt(l, e) <==> FinAt(was, e) || (x.fin && e == x.End() && FinKept(was, x))
  }

  /** `x` is a bare FIN strictly inside piece `k`. */
  predicate Strays(l: seq<Piece>, k: nat, x: Piece) {
    k < |l| && x.data == [] && x.fin && l[k].pos < x.pos < l[k].End()
  }

  /** A bare FIN strictly inside some piece. */
  ghost predicate Stranded(l: seq<Piece>, x: Piece) {
    exists k: nat :: Strays(l, k, x)
  }

  /** Linking what is left of `x`, with its FIN, ends the merge. */
  lemma MergeFinish(was: seq<Piece>, l: seq<Piece>, x: Piece, p: int, k: nat, j: nat)
    requires MergeAt(was, l, x, p, k, j) && Ordered(was) && Ordered(l) && AllSolid(l)
    requires x.pos <= p <= x.End() && Solid(x) && (p < x.End() || x.fin)
    requires p == x.End() && x.data != [] ==> Covered(was, x.End() - 1)
    requires k < |l| ==> x.End() <= l[k].pos
    ensures
      var y := Trimmed(x, p - x.pos);
      var m := if Adds(l, k, y) then Placed(l, k, y) else l;
      Merged(was, m, x, x.End()) && FinMerged(was, m, x)
  {
    var y := Trimmed(x, p - x.pos);
    if Adds(l, k, y) {
      forall r, b
        ensures Has(Placed(l, k, y), r, b) <==> Has(was, r, b) || (r < x.End() && x.Has(r, b) && !Covered(was, r))
      {
        HasPlaced(l, k, y, r, b);
        if p <= r < x.End() { GapUncovered(was, j, y, r, l[k..]); }
      }
      LastKept(was, l, x, p, k, j);
      forall e
        ensures FinAt(Placed(l, k, y), e) <==> FinAt(was, e) || (x.fin && e == x.End() && FinKept(was, x))
      {
        FinPlaced(l, k, y, e);
      }
    } else {
      NextThere(was, l, x, k, j);
    }
  }

  /** What is linked last brings the FIN with it. */
  lemma LastKept(was: seq<Piece>, l: seq<Piece>, x: Piece, p: int, k: nat, j: nat)
    requires MergeAt(was, l, x, p, k, j) && Ordered(was) && x.pos <= p <= x.End()
    requires k < |l| ==> x.End() <= l[k].pos && (p == x.End() ==> x.End() < l[k].pos)
    ensures FinKept(was, x)
  {
    if p < x.End() {
      GapUncovered(was, j, Trimmed(x, p - x.pos), x.End() - 1, l[k..]);
    } else {
      forall i | 0 <= i < |was|
        ensures !(was[i].pos <= x.End() < was[i].End())
      {
        if i >= j {
          assert l[k] == l[k..][0] == was[j..][0] == was[j];
          assert j < i ==> was[j].End() <= was[i].pos;
        }
      }
    }
  }

  /** A piece that starts at the FIN is a bare FIN already, or holds what follows it. */
  lemma NextThere(was: seq<Piece>, l: seq<Piece>, x: Piece, k: nat, j: nat)
    requires MergeAt(was, l, x, x.End(), k, j) && AllSolid(l) && k < |l| && l[k].pos == x.End()
    requires x.data != [] ==> Covered(was, x.End() - 1)
    ensures FinMerged(was, l, x)
  {
    assert l[k] == l[k..][0] == was[j..][0] == was[j];
    if l[k].data != [] { assert Covered(was, x.End()); }
  }

  /** How many pieces start before `p`. */
  lemma StartsBefore(l: seq<Piece>, p: int) returns (k: nat)
    requires Ordered(l)
    ensures k <= |l|
    ensures forall i :: 0 <= i < k ==> l[i].pos < p
    ensures forall i :: k <= i < |l| ==> l[i].pos >= p
  {
    k := 0;
    while k < |l| && l[k].pos < p
      invariant k <= |l| && forall i :: 0 <= i < k ==> l[i].pos < p
    {
      k := k + 1;
    }
  }

  /** Where a merge at `p` starts: at the piece that straddles `p`, if any. */
  lemma MergeFrom(l: seq<Piece>, x: Piece, k: nat)
    requires Ordered(l) && k <= |l| && (x.data != [] || x.fin)
    requires forall i :: 0 <= i < k ==> l[i].pos < x.pos
    requires forall i :: k <= i < |l| ==> l[i].pos >= x.pos
    ensures
      var s := if 0 < k && l[k - 1].End() > x.pos then k - 1 else k;
      MergeAt(l, l, x, x.pos, s, s)
  {
    var s := if 0 < k && l[k - 1].End() > x.pos then k - 1 else k;
    forall i | 0 <= i < s
      ensures l[i].End() <= x.pos
    {
      if i < k - 1 { assert l[i].End() <= l[k - 1].pos; }
    }
    MergeStart(l, x, s);
  }

  /** The insertion starts at the piece that a stray FIN lies in. */
  lemma WhereStranded(l: seq<Piece>, x: Piece, k: nat, s: nat)
    requires Ordered(l) && k <= |l| && Solid(x)
    requires forall i :: 0 <= i < k ==> l[i].pos < x.pos
    requires forall i :: k <= i < |l| ==> l[i].pos >= x.pos
    requires s == if 0 < k && l[k - 1].End() > x.pos then k - 1 else k
    ensures Stranded(l, x) <==> Strays(l, s, x)
    ensures x.data == [] && s < |l| ==> x.pos <= l[s].pos || Strays(l, s, x)
  {
    if Stranded(l, x) {
      var i: nat :| Strays(l, i, x);
      Preceding(l, i, k);
    }
  }

  lemma Preceding(l: seq<Piece>, i: nat, k: nat)
    requires Ordered(l) && k <= |l|
    ensures i + 1 < k ==> l[i].End() <= l[k - 1].pos
  {
  }

  lemma MergeNothing(l: seq<Piece>, x: Piece)
    requires x.data == [] && !x.fin
    ensures Merged(l, l, x, x.End()) && FinMerged(l, l, x) && !Stranded(l, x)
  {
  }

  lemma TailOrdered(l: seq<Piece>)
    requires l != [] && Ordered(l)
    ensures Ordered(l[1..])
  {
    var m := l[1..];
    forall i, j | 0 <= i < j < |m|
      ensures m[i].End() <= m[j].pos
    {
      assert m[i] == l[i + 1] && m[j] == l[j + 1];
    }
  }

  lemma TailKeeps(l: seq<Piece>, lo: int, hi: int)
    requires l != [] && AllSolid(l) && Within(l, lo, hi)
    ensures AllSolid(l[1..]) && Within(l[1..], lo, hi)
    ensures TotalBytes(l) == TotalBytes(l[1..]) + |l[0].data|
  {
    hide TotalBytes;
    TotalRemoved(l, 0);
    assert Removed(l, 0) == l[1..];
  }

  /** Cutting the first piece keeps the rest in place. */
  lemma TrimKeeps(l: seq<Piece>, n: nat, lo: int, hi: int)
    requires l != [] && AllSolid(l) && Within(l, lo, hi) && n <= |l[0].data| && (n < |l[0].data| || l[0].fin)
    ensures
      var m := [Trimmed(l[0], n)] + l[1..];
      m[1..] == l[1..] && AllSolid(m) && Within(m, lo, hi) && TotalBytes(m) == TotalBytes(l) - n
  {
    hide TotalBytes;
    var y := Trimmed(l[0], n);
    var m := [y] + l[1..];
    TailKeeps(l, lo, hi);
    TotalPlaced(l[1..], 0, y);
    assert Placed(l[1..], 0, y) == m;
    forall i | 0 <= i < |m|
      ensures Solid(m[i]) && lo <= m[i].pos && m[i].End() <= hi
    {
      assert Solid(l[i]) && (i > 0 ==> m[i] == l[i]);
    }
  }

  lemma TrimOrdered(l: seq<Piece>, n: nat)
    requires l != [] && Ordered(l) && n < |l[0].data|
    ensures
      var m := [Trimmed(l[0], n)] + l[1..];
      Ordered(m) && (|m| > 1 ==> m[0].pos < m[1].pos)
  {
    var m := [Trimmed(l[0], n)] + l[1..];
    forall i, j | 0 <= i < j < |m|
      ensures m[i].End() <= m[j].pos
    {
      assert m[j] == l[j] && (i > 0 ==> m[i] == l[i]) && m[0].End() == l[0].End();
      assert l[0].End() <= l[j].pos;
    }
  }

  lemma WithinTail(l: seq<Piece>, lo: int, hi: int)
    requires l != [] && Within(l, lo, hi)
    ensures Within(l[1..], lo, hi)
  {
  }

  lemma WithinHead(l: seq<Piece>, lo: int, hi: int)
    requires l != [] && Within(l, lo, hi)
    ensures lo <= l[0].pos && l[0].End() <= hi
  {
  }

  lemma WithinTrim(l: seq<Piece>, n: nat, lo: int, hi: int)
    requires l != [] && Within(l, lo, hi) && n <= |l[0].data|
    ensures Within([Trimmed(l[0], n)] + l[1..], lo, hi)
  {
  }

  /** Since `l0` at `n0`, the bytes `d` were taken off the front: `l` holds what
      `l0` held from `n` on, and maybe stale bytes below. */
  ghost predicate Taken(l0: seq<Piece>, n0: int, l: seq<Piece>, n: int, d: seq<byte>) {
    && n == n0 + |d|
    && (forall i :: 0 <= i < |d| ==> Has(l0, n0 + i, d[i]))
    && (forall p, b :: n <= p ==> (Has(l, p, b) <==> Has(l0, p, b)))
    && (forall e :: n <= e ==> (FinAt(l, e) <==> FinAt(l0, e)))
  }

  lemma TakenRefl(l: seq<Piece>, n: int)
    ensures Taken(l, n, l, n, [])
  {
  }

  /** A first piece that lies below `n` can be dropped. */
  lemma TakenDrop(l0: seq<Piece>, n0: int, l: seq<Piece>, n: int, d: seq<byte>)
    requires Taken(l0, n0, l, n, d) && l != [] && l[0].End() <= n && (l[0].fin ==> l[0].End() < n)
    ensures Taken(l0, n0, l[1..], n, d)
  {
    assert Removed(l, 0) == l[1..];
    assert Placed(l[1..], 0, l[0]) == l;
    forall e | n <= e
      ensures FinAt(l[1..], e) <==> FinAt(l0, e)
    {
      FinPlaced(l[1..], 0, l[0], e);
    }
    forall p, b | n <= p
      ensures Has(l[1..], p, b) <==> Has(l0, p, b)
    {
      HasRemoved(l, 0, p, b);
    }
  }

  /** A first piece that starts below `n` can be cut there. */
  lemma TakenTrim(l0: seq<Piece>, n0: int, l: seq<Piece>, n: int, d: seq<byte>)
    requires Taken(l0, n0, l, n, d) && l != [] && l[0].pos <= n <= l[0].End()
    ensures Taken(l0, n0, [Trimmed(l[0], n - l[0].pos)] + l[1..], n, d)
  {
    var y := Trimmed(l[0], n - l[0].pos);
    var m := [y] + l[1..];
    assert Placed(l[1..], 0, l[0]) == l && Placed(l[1..], 0, y) == m;
    forall e | n <= e
      ensures FinAt(m, e) <==> FinAt(l0, e)
    {
      FinPlaced(l[1..], 0, l[0], e);
      FinPlaced(l[1..], 0, y, e);
    }
    forall p, b | n <= p
      ensures Has(m, p, b) <==> Has(l0, p, b)
    {
      HasPlaced(l[1..], 0, l[0], p, b);
      HasPlaced(l[1..], 0, y, p, b);
    }
  }

  /** A first piece that starts at `n` can be taken. */
  lemma TakenTake(l0: seq<Piece>, n0: int, l: seq<Piece>, n: int, d: seq<byte>)
    requires Taken(l0, n0, l, n, d) && l != [] && l[0].pos == n && !l[0].fin
    ensures Taken(l0, n0, l[1..], n + |l[0].data|, d + l[0].data)
  {
    var x := l[0];
    var e := d + x.data;
    forall i | 0 <= i < |e|
      ensures Has(l0, n0 + i, e[i])
    {
      if i >= |d| {
        assert x.Has(n0 + i, e[i]);
        assert Has(l, n0 + i, e[i]);
      }
    }
    assert Placed(l[1..], 0, x) == l;
    forall e | n + |x.data| <= e
      ensures FinAt(l[1..], e) <==> FinAt(l0, e)
    {
      FinPlaced(l[1..], 0, x, e);
    }
    forall p, b | n + |x.data| <= p
      ensures Has(l[1..], p, b) <==> Has(l0, p, b)
    {
      HasPlaced(l[1..], 0, x, p, b);
    }
  }

  /** The last piece, with the FIN, was taken. */
  lemma TakenLast(l0: seq<Piece>, n0: int, l: seq<Piece>, n: int, d: seq<byte>)
    requires Taken(l0, n0, l, n, d) && l != [] && l[0].pos == n && l[0].fin
    ensures forall i :: 0 <= i < |d + l[0].data| ==> Has(l0, n0 + i, (d + l[0].data)[i])
    ensures FinAt(l0, n + |l[0].data|) && n + |l[0].data| == n0 + |d + l[0].data|
  {
    var x := l[0];
    var e := d + x.data;
    forall i | 0 <= i < |e|
      ensures Has(l0, n0 + i, e[i])
    {
      if i >= |d| {
        assert x.Has(n0 + i, e[i]);
        assert Has(l, n0 + i, e[i]);
      }
    }
  }
}
