/** Searching the out-of-order index by 32-bit sequence number. */
module OfoIndex {
  import opened Serial
  import opened RbShape
  import opened RbTree
  import opened Reassembly

  /** The keys of the tree, in order, are the wrapped starts of the pieces `at`. */
  ghost predicate Keyed(r: RbRoot, at: seq<Piece>)
    reads r, r.nodes
  {
    |at| == |InOrder(r.tree)| && forall i :: 0 <= i < |at| ==> KeyAt(r, at, i)
  }

  ghost predicate KeyAt(r: RbRoot, at: seq<Piece>, i: nat)
    reads r, r.nodes
    requires i < |at| == |InOrder(r.tree)|
  {
    InOrder(r.tree)[i] in r.nodes && InOrder(r.tree)[i].seg.start == Wrap(at[i].pos)
  }

  /** All positions fit one window of less than half the sequence space. */
  ghost predicate InWindow(at: seq<Piece>, p: int, base: int) {
    base <= p < base + HALF && forall i :: 0 <= i < |at| ==> base <= at[i].pos < base + HALF
  }

  /** The focus spans the in-order sequence from `lo` to `hi`. */
  ghost predicate Spans(order: seq<Node>, c: Path, t: Shape, lo: nat, hi: nat) {
    lo == |Before(c)| && hi == lo + |InOrder(t)| && |order| == hi + |After(c)| && order == InOrder(Plug(c, t))
  }

  /** Where the root of the focus stands, and what its two sides span. */
  lemma Halves(order: seq<Node>, c: Path, t: Shape, lo: nat, hi: nat) returns (m: nat)
    requires t.Bin? && Spans(order, c, t, lo, hi)
    ensures lo <= m < hi <= |order| && order[m] == t.node
    ensures Spans(order, InL(c, t.node, t.red, t.right), t.left, lo, m)
    ensures Spans(order, InR(t.left, t.node, t.red, c), t.right, m + 1, hi)
  {
    m := |Before(c)| + |InOrder(t.left)|;
    OrderAround(c, t);
  }

  lemma Whole(t: Shape)
    ensures Spans(InOrder(t), Top, t, 0, |InOrder(t)|)
  {
  }

  /** A node or null: with sorted keys (`good`) the first node whose key is not before `key`. */
  method LowerBound(r: RbRoot, key: u32, ghost good: bool, ghost at: seq<Piece>, ghost p: int, ghost k: nat,
                    ghost base: int)
    returns (found: Node?)
    requires r.Linked()
    requires good ==> Keyed(r, at) && key == Wrap(p) && InWindow(at, p, base) && k <= |at|
    requires good ==> forall i :: 0 <= i < k ==> at[i].pos < p
    requires good ==> forall i :: k <= i < |at| ==> at[i].pos >= p
    ensures found != null ==> found in InOrder(r.tree)
    ensures good ==> found == if k < |at| then InOrder(r.tree)[k] else null
  {
    var n := r.node;
    found := null;
    ghost var order := InOrder(r.tree);
    ghost var c: Path, t: Shape := Top, r.tree;
    ghost var lo: nat, hi: nat := 0, |order|;
    Whole(t);
    while n != null
      invariant r.Linked() && (good ==> Keyed(r, at)) && order == InOrder(r.tree)
      invariant r.tree == Plug(c, t) && n == RootOf(t)
      invariant Spans(order, c, t, lo, hi) && (good ==> lo <= k <= hi)
      invariant found != null ==> found in order
      invariant good ==> found == if hi < |at| then order[hi] else null
      decreases t
    {
      r.Around(c, t);
      ghost var m := Halves(order, c, t, lo, hi);
      if good {
        assert KeyAt(r, at, m);
        SerialOrder(at[m].pos, p);
      }
      if Lt(n.seg.start, key) {
        n := n.right;
        c, t, lo := InR(t.left, t.node, t.red, c), t.right, m + 1;
      } else {
        found := n;
        n := n.left;
        c, t, hi := InL(c, t.node, t.red, t.right), t.left, m;
      }
    }
  }

  /** Descend to the vacant link for `x` and rebalance. It enters the order somewhere, and in a
      tree whose keys are sorted (`good`) behind everything that starts by then. */
  method TreeInsert(r: RbRoot, x: Node, ghost good: bool, ghost at: seq<Piece>, ghost p: int, ghost k: nat,
                    ghost base: int)
    returns (ghost t: nat)
    requires r.Valid() && x !in r.nodes
    requires good ==> Keyed(r, at) && x.seg.start == Wrap(p) && InWindow(at, p, base) && k <= |at|
    requires good ==> forall i :: 0 <= i < k ==> at[i].pos <= p
    requires good ==> forall i :: k <= i < |at| ==> at[i].pos > p
    modifies r, x`left, x`right, x`parent, x`red
    modifies r.nodes`left, r.nodes`right, r.nodes`parent, r.nodes`red
    ensures r.Valid() && r.nodes == old(r.nodes) + {x} && t <= |old(InOrder(r.tree))| && (good ==> t == k)
    ensures InOrder(r.tree) == old(InOrder(r.tree))[..t] + [x] + old(InOrder(r.tree))[t..]
  {
    var n := r.node;
    var parent: Node? := null;
    var onLeft := false;
    ghost var order := InOrder(r.tree);
    ghost var c: Path, f: Shape := Top, r.tree;
    ghost var lo: nat, hi: nat := 0, |order|;
    Whole(f);
    while n != null
      modifies {}
      invariant r.Valid() && (good ==> Keyed(r, at)) && order == InOrder(r.tree)
      invariant r.tree == Plug(c, f) && n == RootOf(f)
      invariant Spans(order, c, f, lo, hi) && (good ==> lo <= k <= hi)
      invariant parent == Above(c) && (c.Top? || onLeft == c.InL?)
      decreases f
    {
      r.Around(c, f);
      ghost var m := Halves(order, c, f, lo, hi);
      if good {
        assert KeyAt(r, at, m);
        SerialOrder(p, at[m].pos);
      }
      parent := n;
      if Lt(x.seg.start, n.seg.start) {
        onLeft := true;
        n := n.left;
        c, f, hi := InL(c, f.node, f.red, f.right), f.left, m;
      } else {
        onLeft := false;
        n := n.right;
        c, f, lo := InR(f.left, f.node, f.red, c), f.right, m + 1;
      }
    }
    t := lo;
    r.Insert(x, parent, onLeft, c);
  }
}
