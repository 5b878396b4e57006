/** The two structures that hold the out-of-order segments of one stream: a
    doubly linked, sequence-ordered list and a red-black tree over the same nodes. */
module OfoStore {
  import opened Serial
  import opened Segments
  import opened RbShape
  import opened RbTree
  import opened OfoIndex
  import opened Reassembly

  function Coded(x: Piece): Segment { Segment(Wrap(x.pos), x.data, x.fin) }

  /** Position `i` of the list, or null at either end. */
  ghost function Nth(list: seq<Node>, i: int): Node? {
    if 0 <= i < |list| then list[i] else null
  }

  ghost predicate LinkedAt(list: seq<Node>, i: nat)
    requires i < |list|
    reads list`prev, list`next
  {
    list[i].prev == Nth(list, i - 1) && list[i].next == Nth(list, i + 1)
  }

  lemma NthPlaced(list: seq<Node>, k: nat, x: Node, i: int)
    requires k <= |list|
    ensures Nth(Placed(list, k, x), i) == if i < k then Nth(list, i) else if i == k then x else Nth(list, i - 1)
  {
  }

  ghost predicate NoRepeat(list: seq<Node>) {
    forall i, j :: 0 <= i < j < |list| ==> list[i] != list[j]
  }

  /** The list with links to its first and last node. */
  class Chain {
    var head: Node?
    var tail: Node?
    ghost var nodes: seq<Node>

    constructor ()
      ensures Valid() && nodes == []
    {
      head, tail, nodes := null, null, [];
    }

    ghost predicate Valid()
      reads this, nodes`prev, nodes`next
    {
      && head == Nth(nodes, 0) && tail == Nth(nodes, |nodes| - 1) && NoRepeat(nodes)
      && forall i :: 0 <= i < |nodes| ==> LinkedAt(nodes, i)
    }

    /** `tcp_ofo_list_insert_before` */
    method InsertBefore(x: Node, before: Node?, ghost k: nat)
      requires Valid() && k <= |nodes| && before == Nth(nodes, k) && x !in nodes
      modifies this, nodes`prev, nodes`next, x`prev, x`next
      ensures Valid() && nodes == Placed(old(nodes), k, x)
    {
      ghost var was := nodes;
      if before == null {
        x.next := null;
        x.prev := tail;
        if tail != null {
          tail.next := x;
        } else {
          head := x;
        }
        tail := x;
      } else {
        assert LinkedAt(nodes, k);
        x.next := before;
        x.prev := before.prev;
        if before.prev != null {
          before.prev.next := x;
        } else {
          head := x;
        }
        before.prev := x;
      }
      nodes := Placed(nodes, k, x);
      forall i | 0 <= i < |nodes|
        ensures LinkedAt(nodes, i)
      {
        NthPlaced(was, k, x, i);
        NthPlaced(was, k, x, i - 1);
        NthPlaced(was, k, x, i + 1);
        assert i != k ==> old(LinkedAt(nodes, if i < k then i else i - 1));
      }
    }

    /** The list part of `tcp_ofo_unlink` */
    method Remove(x: Node, ghost k: nat)
      requires Valid() && k < |nodes| && x == nodes[k]
      modifies this, nodes`prev, nodes`next
      ensures Valid() && nodes == Removed(old(nodes), k)
    {
      assert LinkedAt(nodes, k);
      ghost var was := nodes;
      if x.prev != null {
        x.prev.next := x.next;
      } else {
        head := x.next;
      }
      if x.next != null {
        x.next.prev := x.prev;
      } else {
        tail := x.prev;
      }
      x.prev := null;
      x.next := null;
      nodes := Removed(nodes, k);
      forall i | 0 <= i < |nodes|
        ensures LinkedAt(nodes, i)
      {
        ghost var j := if i < k then i else i + 1;
        assert old(LinkedAt(nodes, j)) && nodes[i] == was[j];
        assert Nth(nodes, i - 1) == if i == k then Nth(was, k - 1) else Nth(was, j - 1);
        assert Nth(nodes, i + 1) == if i + 1 == k then Nth(was, k + 1) else Nth(was, j + 1);
      }
    }
  }

  /** The list is the coded form of the pieces. */
  ghost predicate Shown(list: seq<Node>, held: seq<Piece>)
    reads list`seg
  {
    |list| == |held| && forall i :: 0 <= i < |list| ==> list[i].seg == Coded(held[i])
  }

  lemma ShownPlaced(list: seq<Node>, held: seq<Piece>, k: nat, n: Node, x: Piece)
    requires Shown(list, held) && k <= |list| && n.seg == Coded(x)
    ensures Shown(Placed(list, k, n), Placed(held, k, x))
  {
    forall i | 0 <= i <= |list|
      ensures Placed(list, k, n)[i].seg == Coded(Placed(held, k, x)[i])
    {
      PlacedAt(list, k, n, i);
      PlacedAt(held, k, x, i);
    }
  }

  lemma ShownTail(list: seq<Node>, held: seq<Piece>)
    requires Shown(list, held) && list != []
    ensures Shown(list[1..], held[1..])
  {
  }

  lemma ShownHead(list: seq<Node>, rest: seq<Piece>, y: Piece)
    requires list != [] && Shown(list[1..], rest) && list[0].seg == Coded(y)
    ensures Shown(list, [y] + rest)
  {
    forall i | 0 <= i < |list|
      ensures list[i].seg == Coded(([y] + rest)[i])
    {
      if i > 0 { assert list[i] == list[1..][i - 1]; }
    }
  }

  lemma TrimCode(x: Piece, skip: nat)
    requires skip <= |x.data|
    ensures Coded(Trimmed(x, skip)) == Segment(Add32(Wrap(x.pos), skip), x.data[skip..], x.fin)
  {
    AddWrap(x.pos, skip);
  }

  /** Taking the head out of an order that has it at place `k` leaves the rest of the list. */
  lemma HeadOut(list: seq<Node>, k: nat, a: seq<Node>, b: seq<Node>)
    requires list != [] && k < |list| && NoRepeat(list) && Placed(list[1..], k, list[0]) == a + [list[0]] + b
    ensures a + b == list[1..]
  {
    var order, rest := Placed(list[1..], k, list[0]), list[1..];
    PlacedAt(rest, k, list[0], |a|);
    assert order[|a|] == list[0];
    assert |a| == k;
    assert a == order[..k] == rest[..k] && b == order[k + 1..] == rest[k..];
  }

  /** Where the tree puts a piece that starts at `p`: behind everything that starts by then. */
  ghost predicate Goes(held: seq<Piece>, t: nat, p: int) {
    && t <= |held| && (forall i :: 0 <= i < t ==> held[i].pos <= p)
    && (forall i :: t <= i < |held| ==> p < held[i].pos)
  }

  /** A piece that fits at `k` goes to `k` in the tree as well; a stray FIN goes behind. */
  lemma GoesTo(held: seq<Piece>, k: nat, x: Piece) returns (t: nat)
    requires Ordered(held) && (Fits(held, k, x) || Strays(held, k, x))
    ensures k <= t <= k + 1 && k <= |held| && Goes(held, t, x.pos) && (t == k <==> Fits(held, k, x))
  {
    t := if Fits(held, k, x) then k else k + 1;
    if t == k + 1 {
      forall i | 0 <= i < |held|
        ensures if i < t then held[i].pos <= x.pos else x.pos < held[i].pos
      {
        if i < k { assert held[i].End() <= held[k].pos; }
        if i > k { assert held[k].End() <= held[i].pos; }
      }
    }
  }

  class Store {
    const index: RbRoot
    const chain: Chain
    ghost var held: seq<Piece>  // the list at unwrapped positions

    constructor ()
      ensures Valid() && held == [] && fresh(Repr() - {this})
    {
      index := new RbRoot();
      chain := new Chain();
      held := [];
    }

    ghost function Repr(): set<object>
      reads this, index
    {
      {this, index, chain} + index.nodes
    }

    /** The tree walked in order is the list. */
    ghost predicate Valid()
      reads this, index, chain, index.nodes, chain.nodes
    {
      && index.Valid() && chain.Valid() && InOrder(index.tree) == chain.nodes
      && Shown(chain.nodes, held)
    }

    /** Tree and list hold the same nodes, in whatever order. */
    ghost predicate Loose()
      reads this, index, chain, index.nodes, chain.nodes
    {
      && index.Valid() && chain.Valid() && Shown(chain.nodes, held)
      && (forall n :: n in chain.nodes ==> n in index.nodes) && (forall n :: n in index.nodes ==> n in chain.nodes)
    }

    lemma ValidLoose()
      requires Valid()
      ensures Loose()
    {
      forall n | n in chain.nodes || n in index.nodes
        ensures n in chain.nodes && n in index.nodes
      {
        OrderNodes(index.tree, n);
      }
    }

    lemma KeyedByStart()
      requires Valid()
      ensures Keyed(index, held)
    {
      ListInTree();
      forall i | 0 <= i < |held|
        ensures KeyAt(index, held, i)
      {
        assert chain.nodes[i].seg == Coded(held[i]);
      }
    }

    lemma ListInTree()
      requires index.Valid() && InOrder(index.tree) == chain.nodes
      ensures forall n :: n in chain.nodes ==> n in index.nodes
    {
      forall n | n in chain.nodes
        ensures n in index.nodes
      {
        OrderNodes(index.tree, n);
      }
    }

    /** `tcp_ofo_tree_insert` leaves the list alone. */
    method EnterTree(n: Node, ghost good: bool, ghost t: nat, ghost x: Piece, ghost base: int)
      requires Loose() && n !in index.nodes && n.seg == Coded(x)
      requires good ==> Agree() && Goes(held, t, x.pos) && InWindow(held, x.pos, base)
      modifies index, index.nodes`left, index.nodes`right, index.nodes`parent, index.nodes`red, n
      ensures index.Valid() && index.nodes == old(index.nodes) + {n} && chain.Valid() && Shown(chain.nodes, held)
      ensures n.seg == Coded(x) && (good ==> InOrder(index.tree) == Placed(chain.nodes, t, n))
    {
      if good { KeyedByStart(); }
      ghost var _ := TreeInsert(index, n, good, held, x.pos, t, base);
    }

    /** `tcp_ofo_list_insert_before` leaves the tree alone. */
    method EnterList(n: Node, before: Node?, ghost k: nat, ghost x: Piece)
      requires index.Valid() && chain.Valid() && Shown(chain.nodes, held) && n.seg == Coded(x)
      requires k <= |chain.nodes| && before == Nth(chain.nodes, k) && n !in chain.nodes
      modifies this, chain, chain.nodes`prev, chain.nodes`next, n`prev, n`next
      ensures index.Valid() && chain.Valid() && Shown(chain.nodes, held)
      ensures chain.nodes == Placed(old(chain.nodes), k, n) && held == Placed(old(held), k, x)
    {
      ghost var list := chain.nodes;
      chain.InsertBefore(n, before, k);
      ShownPlaced(list, held, k, n, x);
      held := Placed(held, k, x);
    }

    /** The tree walked in order is the list. */
    ghost predicate Agree()
      reads index, chain
    {
      InOrder(index.tree) == chain.nodes
    }

    method Enter(n: Node, before: Node?, ghost good: bool, ghost k: nat, ghost t: nat, ghost x: Piece, ghost base: int)
      requires Loose() && n !in index.nodes && n.seg == Coded(x) && k <= |held| && before == Nth(chain.nodes, k)
      requires good ==> Agree() && Goes(held, t, x.pos) && InWindow(held, x.pos, base)
      modifies Repr(), n
      ensures held == Placed(old(held), k, x) && index.Valid() && chain.Valid() && Shown(chain.nodes, held)
      ensures index.nodes == old(index.nodes) + {n} && before == Nth(chain.nodes, k + 1)
      ensures chain.nodes == Placed(old(chain.nodes), k, n)
      ensures good ==> InOrder(index.tree) == Placed(old(chain.nodes), t, n)
    {
      NthPlaced(chain.nodes, k, n, k + 1);
      EnterTree(n, good, t, x, base);
      EnterList(n, before, k, x);
    }

    lemma SameLength()
      requires Loose()
      ensures |chain.nodes| == |held|
    {
    }

    /** What the list node at position `k` holds. */
    lemma Holds(k: nat)
      requires Loose() && k < |held|
      ensures |chain.nodes| == |held| && chain.nodes[k].seg == Coded(held[k])
      ensures chain.nodes[k].next == Nth(chain.nodes, k + 1)
    {
      assert LinkedAt(chain.nodes, k);
    }

    lemma PlacedNodes(list: seq<Node>, k: nat, n: Node)
      requires k <= |list|
      ensures n in Placed(list, k, n) && forall m :: m in list ==> m in Placed(list, k, n)
      ensures forall m :: m in Placed(list, k, n) ==> m in list || m == n
    {
      assert list == list[..k] + list[k..];
    }

    /** Allocate a node for a piece and enter it: at `k` in the list, and in a sorted store (`good`)
        at `t` in the tree. */
    method Put(start: u32, data: seq<byte>, fin: bool, before: Node?, ghost good: bool, ghost k: nat, ghost t: nat,
               ghost x: Piece, ghost base: int)
      requires Loose() && Coded(x) == Segment(start, data, fin) && k <= |held| && before == Nth(chain.nodes, k)
      requires good ==> Agree() && k <= t <= k + 1 && Goes(held, t, x.pos) && InWindow(held, x.pos, base)
      modifies Repr()
      ensures held == Placed(old(held), k, x) && Loose()
      ensures fresh(Repr() - old(Repr())) && before == Nth(chain.nodes, k + 1)
      ensures good ==> (Agree() <==> t == k) && (t == k ==> Valid())
    {
      var n := new Node(Segment(start, data, fin));
      ghost var list := chain.nodes;
      Enter(n, before, good, k, t, x, base);
      PlacedAt(list, k, n, k);
      if good && t != k { PlacedAt(list, t, n, k); }
      PlacedNodes(list, k, n);
    }

    /** The head may stand behind others in the tree, but only on its way out: a bare FIN is put
        back behind whatever has the same key. */
    ghost predicate HeadLoose()
      reads index, chain
    {
      chain.nodes != [] && exists k :: 0 <= k < |chain.nodes| && HeadAt(k)
    }

    ghost predicate HeadAt(k: nat)
      requires chain.nodes != [] && k < |chain.nodes|
      reads index, chain
    {
      InOrder(index.tree) == Placed(chain.nodes[1..], k, chain.nodes[0])
    }

    lemma HeadFirst()
      requires Agree() && chain.nodes != []
      ensures HeadLoose()
    {
      assert HeadAt(0);
    }

    method DropTree(x: Node)
      requires Loose() && chain.nodes != [] && x == chain.nodes[0]
      modifies index, index.nodes`left, index.nodes`right, index.nodes`parent, index.nodes`red
      ensures index.Valid() && index.nodes == old(index.nodes) - {x} && chain.Valid() && Shown(chain.nodes, held)
      ensures old(HeadLoose()) ==> InOrder(index.tree) == chain.nodes[1..]
    {
      ghost var good, k: nat := HeadLoose(), 0;
      if good {
        k :| 0 <= k < |chain.nodes| && HeadAt(k);
      }
      ghost var a, b := index.Erase(x);
      if good { HeadOut(chain.nodes, k, a, b); }
    }

    method DropList(x: Node)
      requires index.Valid() && chain.Valid() && Shown(chain.nodes, held) && chain.nodes != [] && x == chain.nodes[0]
      modifies this, chain, chain.nodes`prev, chain.nodes`next
      ensures index.Valid() && chain.Valid() && Shown(chain.nodes, held)
      ensures chain.nodes == old(chain.nodes)[1..] && held == old(held)[1..]
    {
      chain.Remove(x, 0);
      held := held[1..];
    }

    lemma NoNodes()
      requires Loose() && held == []
      ensures Agree()
    {
      assert index.nodes == {};
      if InOrder(index.tree) != [] {
        OrderNodes(index.tree, InOrder(index.tree)[0]);
      }
    }

    lemma HeadSeg()
      requires Loose() && held != []
      ensures chain.head != null && chain.head.seg == Coded(held[0])
    {
    }

    lemma FirstNodes(list: seq<Node>)
      requires list != [] && NoRepeat(list)
      ensures forall n :: n in list ==> n == list[0] || n in list[1..]
      ensures forall n :: n in list[1..] ==> n in list && n != list[0]
    {
      assert list == [list[0]] + list[1..];
    }

    /** `tcp_ofo_unlink` of the first node. */
    method DropHead()
      requires Loose() && held != []
      modifies Repr()
      ensures Loose() && held == old(held)[1..] && index.nodes <= old(index.nodes)
      ensures old(HeadLoose()) ==> Valid()
    {
      var x := chain.head;
      FirstNodes(chain.nodes);
      DropTree(x);
      DropList(x);
    }

    /** Put the erased head back into the tree under its new key. */
    method Rekey(x: Node, ghost y: Piece, ghost good: bool, ghost k: nat, ghost base: int)
      requires index.Valid() && chain.Valid() && chain.nodes != [] && x == chain.nodes[0] && x !in index.nodes
      requires |held| == |chain.nodes| && Shown(chain.nodes[1..], held[1..]) && x.seg == Coded(y)
      requires good ==>
                 InOrder(index.tree) == chain.nodes[1..] && InWindow(held[1..], y.pos, base) && Leads(y, held[1..], k)
      modifies index, index.nodes`left, index.nodes`right, index.nodes`parent, index.nodes`red
      modifies x`left, x`right, x`parent, x`red
      ensures index.Valid() && index.nodes == old(index.nodes) + {x} && chain.Valid()
      ensures Shown(chain.nodes[1..], held[1..]) && x.seg == Coded(y) && (good ==> k < |chain.nodes| && HeadAt(k))
    {
      ghost var rest, list := held[1..], chain.nodes[1..];
      if good {
        forall i | 0 <= i < |rest|
          ensures KeyAt(index, rest, i)
        {
          OrderNodes(index.tree, list[i]);
        }
      }
      ghost var _ := TreeInsert(index, x, good, rest, y.pos, k, base);
    }

    /** Erase the head from the tree and cut its segment. */
    method TakeOut(x: Node, skip: nat)
      requires Loose() && chain.nodes != [] && x == chain.nodes[0] && skip <= |held[0].data|
      modifies index, index.nodes`left, index.nodes`right, index.nodes`parent, index.nodes`red, x`seg
      ensures index.Valid() && index.nodes == old(index.nodes) - {x} && chain.Valid()
      ensures Shown(chain.nodes[1..], held[1..]) && x.seg == Coded(Trimmed(held[0], skip))
      ensures old(HeadLoose()) ==> InOrder(index.tree) == chain.nodes[1..]
    {
      DropTree(x);
      TrimCode(held[0], skip);
      ShownTail(chain.nodes, held);
      x.seg := Segment(Add32(x.seg.start, skip), x.seg.data[skip..], x.seg.fin);
    }

    /** Rename the first piece. */
    method Relabel(ghost y: Piece)
      requires index.Valid() && chain.Valid() && chain.nodes != [] && |held| == |chain.nodes|
      requires Shown(chain.nodes[1..], held[1..]) && chain.nodes[0].seg == Coded(y)
      modifies this`held
      ensures held == [y] + old(held)[1..] && Shown(chain.nodes, held)
    {
      ShownHead(chain.nodes, held[1..], y);
      held := [y] + held[1..];
    }

    /** `tcp_ofo_rekey_after_trim`: cut `skip` bytes off the first node. */
    method TrimHead(skip: nat, ghost good: bool, ghost k: nat, ghost base: int)
      requires Loose() && held != [] && 0 < skip <= |held[0].data|
      requires good ==> Agree() && Leads(Trimmed(held[0], skip), held[1..], k)
      requires good ==> InWindow(held[1..], held[0].pos + skip, base)
      modifies Repr()
      ensures Loose() && held == [Trimmed(old(held)[0], skip)] + old(held)[1..] && index.nodes == old(index.nodes)
      ensures good ==> HeadLoose() && (k == 0 ==> Valid())
    {
      hide Leads, InWindow, RbRoot.Valid, Chain.Valid, HeadAt, Coded;
      if good { HeadFirst(); }
      var x := FirstOut(skip);
      Rekey(x, Trimmed(held[0], skip), good, k, base);
      Relabel(Trimmed(held[0], skip));
      if good { Loosened(k); }
    }

    /** The first node leaves the tree with its segment cut. */
    method FirstOut(skip: nat) returns (x: Node)
      requires Loose() && held != [] && skip <= |held[0].data|
      modifies Repr()
      ensures chain.nodes == old(chain.nodes) != [] && x == chain.nodes[0] && held == old(held) && x !in index.nodes
      ensures index.Valid() && index.nodes == old(index.nodes) - {x} && x in old(index.nodes) && |held| == |chain.nodes|
      ensures chain.Valid() && Shown(chain.nodes[1..], held[1..]) && x.seg == Coded(Trimmed(held[0], skip))
      ensures old(HeadLoose()) ==> InOrder(index.tree) == chain.nodes[1..]
    {
      x := chain.head;
      TakeOut(x, skip);
    }

    lemma Loosened(k: nat)
      requires index.Valid() && chain.Valid() && Shown(chain.nodes, held) && k < |chain.nodes| && HeadAt(k)
      ensures HeadLoose() && (k == 0 ==> Valid())
    {
      if k == 0 { assert Placed(chain.nodes[1..], 0, chain.nodes[0]) == chain.nodes; }
    }

    /** Two nodes of the list: in a sorted store (`good`) the first one not before `p` and the one in
        front of it. */
    method Find(key: u32, ghost good: bool, ghost p: int, ghost k: nat, ghost base: int)
      returns (before: Node?, prev: Node?)
      requires Loose()
      requires good ==> Agree() && key == Wrap(p) && InWindow(held, p, base) && k <= |held|
      requires good ==> forall i :: 0 <= i < k ==> held[i].pos < p
      requires good ==> forall i :: k <= i < |held| ==> held[i].pos >= p
      ensures (before != null ==> before in chain.nodes) && (prev != null ==> prev in chain.nodes)
      ensures good ==> before == Nth(chain.nodes, k) && prev == Nth(chain.nodes, k - 1)
    {
      if good { KeyedByStart(); }
      before := LowerBound(index, key, good, held, p, k, base);
      if before != null {
        OrderNodes(index.tree, before);
        ghost var i;
        prev, i := index.Prev(before);
        if prev != null { OrderNodes(index.tree, prev); }
      } else {
        prev := index.Last();
        if prev != null { OrderNodes(index.tree, prev); }
      }
    }

    /** Where a node stands in the list; null stands behind it. */
    lemma PlaceOf(n: Node?) returns (k: nat)
      requires Loose() && (n != null ==> n in chain.nodes)
      ensures k <= |held| && n == Nth(chain.nodes, k)
    {
      k := |held|;
      if n != null {
        k :| k < |chain.nodes| && chain.nodes[k] == n;
      }
    }

    /** The segments in list order, as a walk from the head meets them. */
    method Walk() returns (segs: seq<Segment>)
      requires Loose()
      ensures |segs| == |held| && forall i :: 0 <= i < |segs| ==> segs[i] == Coded(held[i])
    {
      hide Loose;
      SameLength();
      segs := [];
      var n := chain.head;
      FirstNode();
      while n != null
        invariant |segs| <= |held| == |chain.nodes| && n == Nth(chain.nodes, |segs|)
        invariant forall i :: 0 <= i < |segs| ==> segs[i] == Coded(held[i])
        decreases |held| - |segs|
      {
        Holds(|segs|);
        segs := segs + [n.seg];
        n := n.next;
      }
    }

    lemma FirstNode()
      requires Loose()
      ensures chain.head == Nth(chain.nodes, 0)
    {
    }
  }
}
