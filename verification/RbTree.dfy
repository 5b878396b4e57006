/** One buffered out-of-order segment: payload after the trimmed prefix. */
module Segments {
  import opened Serial

  datatype Segment = Segment(start: u32, data: seq<byte>, fin: bool)
}

/** The intrusive red-black tree of pro-stack/rbtree.c over real heap nodes.

    `tree` is a ghost picture of the shape; `Rep` ties it to the `left`,
    `right`, `parent` and `red` fields.  While an operation is between two
    consistent states the picture is a context and a focused subtree. */
module RbTree {
  import opened RbShape
  import opened Segments

  class Node {
    var left: Node?
    var right: Node?
    var parent: Node?
    var red: bool
    var seg: Segment
    var prev: Node?  // neighbours in the sequence-ordered list
    var next: Node?

    ghost function Now(): Cell
      reads this`left, this`right, this`parent, this`red
    {
      Cell(left, right, parent, red)
    }

    constructor (s: Segment)
      ensures seg == s && left == null && right == null && parent == null && red
    {
      left, right, parent, red, seg, prev, next := null, null, null, true, s, null, null;
    }
  }

  type Shape = Tree<Node>
  type Path = Ctx<Node>

  ghost function Nodes(t: Shape): set<Node> {
    match t
    case Leaf => {}
    case Bin(l, n, _, r) => Nodes(l) + {n} + Nodes(r)
  }

  ghost function PathNodes(c: Path): set<Node> {
    match c
    case Top => {}
    case InL(up, n, _, r) => PathNodes(up) + {n} + Nodes(r)
    case InR(l, n, _, up) => PathNodes(up) + {n} + Nodes(l)
  }

  ghost predicate Distinct(t: Shape) {
    match t
    case Leaf => true
    case Bin(l, n, _, r) => n !in Nodes(l) && n !in Nodes(r) && Nodes(l) !! Nodes(r) && Distinct(l) && Distinct(r)
  }

  ghost predicate PathDistinct(c: Path) {
    match c
    case Top => true
    case InL(up, n, _, r) =>
      n !in PathNodes(up) && n !in Nodes(r) && Nodes(r) !! PathNodes(up) && Distinct(r) && PathDistinct(up)
    case InR(l, n, _, up) =>
      n !in PathNodes(up) && n !in Nodes(l) && Nodes(l) !! PathNodes(up) && Distinct(l) && PathDistinct(up)
  }

  ghost predicate Apart(c: Path, t: Shape) {
    PathDistinct(c) && Distinct(t) && PathNodes(c) !! Nodes(t)
  }

  lemma {:induction false} PlugNodes(c: Path, t: Shape)
    ensures Nodes(Plug(c, t)) == PathNodes(c) + Nodes(t)
    ensures Distinct(Plug(c, t)) <==> Apart(c, t)
  {
    match c
    case Top =>
    case InL(up, n, red, r) => PlugNodes(up, Bin(t, n, red, r));
    case InR(l, n, red, up) => PlugNodes(up, Bin(l, n, red, t));
  }

  ghost function Above(c: Path): Node? {
    match c
    case Top => null
    case InL(_, n, _, _) => n
    case InR(_, n, _, _) => n
  }

  ghost function RootOf(t: Shape): Node? {
    if t.Leaf? then null else t.node
  }

  /** What the four link fields of a node hold. */
  datatype Cell = Cell(left: Node?, right: Node?, parent: Node?, red: bool)

  /** The cell `was` after its child link `p` was replaced by `q`. */
  ghost function Retarget(was: Cell, p: Node?, q: Node?): Cell {
    if was.left == p then was.(left := q) else was.(right := q)
  }

  /** The cell of `n` after `x`, below `p`, was rotated left around its right
      child `y`, whose left child was `b`. */
  ghost function LeftCell(p: Node?, x: Node, y: Node, b: Node?, n: Node, was: Cell): Cell {
    if n == x then was.(right := b, parent := y)
    else if n == y then was.(left := x, parent := p)
    else if n == b then was.(parent := x)
    else if n == p then Retarget(was, x, y)
    else was
  }

  ghost function RightCell(p: Node?, x: Node, y: Node, b: Node?, n: Node, was: Cell): Cell {
    if n == x then was.(left := b, parent := y)
    else if n == y then was.(right := x, parent := p)
    else if n == b then was.(parent := x)
    else if n == p then Retarget(was, x, y)
    else was
  }

  /** What node `n` of shape `t` must hold when the root of `t` hangs below `par`. */
  ghost function At(t: Shape, par: Node?, n: Node): Cell
    requires n in Nodes(t)
  {
    if n == t.node then Cell(RootOf(t.left), RootOf(t.right), par, t.red)
    else if n in Nodes(t.left) then At(t.left, t.node, n)
    else At(t.right, t.node, n)
  }

  /** What ancestor or side node `n` of a hole that points to `hole` must hold. */
  ghost function PathAt(c: Path, hole: Node?, n: Node): Cell
    requires n in PathNodes(c)
  {
    match c
    case InL(up, p, red, r) =>
      if n == p then Cell(hole, RootOf(r), Above(up), red)
      else if n in Nodes(r) then At(r, p, n) else PathAt(up, p, n)
    case InR(l, p, red, up) =>
      if n == p then Cell(RootOf(l), hole, Above(up), red)
      else if n in Nodes(l) then At(l, p, n) else PathAt(up, p, n)
  }

  ghost function PathRoot(c: Path, hole: Node?): Node? {
    match c
    case Top => hole
    case InL(up, n, _, _) => PathRoot(up, n)
    case InR(_, n, _, up) => PathRoot(up, n)
  }

  lemma {:induction false} PlugRoot(c: Path, t: Shape)
    ensures RootOf(Plug(c, t)) == PathRoot(c, RootOf(t))
  {
    match c
    case Top =>
    case InL(up, n, red, r) => PlugRoot(up, Bin(t, n, red, r));
    case InR(l, n, red, up) => PlugRoot(up, Bin(l, n, red, t));
  }

  lemma {:induction false} PathRootIn(c: Path, hole: Node?)
    requires !c.Top?
    ensures PathRoot(c, hole) != null && PathRoot(c, hole) in PathNodes(c)
  {
    if !c.up.Top? { PathRootIn(c.up, c.node); }
  }

  lemma {:induction false} PlugAt(c: Path, t: Shape, n: Node)
    requires Apart(c, t) && n in PathNodes(c) + Nodes(t)
    ensures n in Nodes(Plug(c, t))
    ensures At(Plug(c, t), null, n) == if n in Nodes(t) then At(t, Above(c), n) else PathAt(c, RootOf(t), n)
  {
    PlugNodes(c, t);
    match c
    case Top =>
    case InL(up, p, red, r) => PlugAt(up, Bin(t, p, red, r), n);
    case InR(l, p, red, up) => PlugAt(up, Bin(l, p, red, t), n);
  }

  /** The shape after a left rotation at the root of `t`. */
  ghost function Left(t: Shape): Shape
    requires t.Bin? && t.right.Bin?
  {
    Bin(Bin(t.left, t.node, t.red, t.right.left), t.right.node, t.right.red, t.right.right)
  }

  /** The shape after a right rotation at the root of `t`. */
  ghost function Right(t: Shape): Shape
    requires t.Bin? && t.left.Bin?
  {
    Bin(t.left.left, t.left.node, t.left.red, Bin(t.left.right, t.node, t.red, t.right))
  }

  lemma {:induction false} LeftSame(t: Shape)
    requires t.Bin? && t.right.Bin? && Distinct(t)
    ensures Nodes(Left(t)) == Nodes(t) && Distinct(Left(t)) && InOrder(Left(t)) == InOrder(t)
  {
    var s := Left(t);
    assert Distinct(t.right) && Nodes(t) == Nodes(t.left) + {t.node} + Nodes(t.right);
    assert Distinct(s.left);
  }

  lemma {:induction false} RightSame(t: Shape)
    requires t.Bin? && t.left.Bin? && Distinct(t)
    ensures Nodes(Right(t)) == Nodes(t) && Distinct(Right(t)) && InOrder(Right(t)) == InOrder(t)
  {
    var s := Right(t);
    assert Distinct(t.left) && Nodes(t) == Nodes(t.left) + {t.node} + Nodes(t.right);
    assert Distinct(s.right);
  }

  /** Moving a subtree below another parent changes one field of one node. */
  lemma {:induction false} Reparent(t: Shape, p: Node?, q: Node?, n: Node)
    requires n in Nodes(t)
    ensures At(t, q, n) == if n == t.node then At(t, p, n).(parent := q) else At(t, p, n)
  {
  }

  /** Exactly which cells a left rotation changes inside the rotated subtree. */
  lemma {:induction false} LeftAt(t: Shape, par: Node?, n: Node)
    requires t.Bin? && t.right.Bin? && Distinct(t) && n in Nodes(t)
    ensures n in Nodes(Left(t))
    ensures
      At(Left(t), par, n) ==
      if n == t.node then At(t, par, n).(right := RootOf(t.right.left), parent := t.right.node)
      else if n == t.right.node then At(t, par, n).(left := t.node, parent := par)
      else if n == RootOf(t.right.left) then At(t, par, n).(parent := t.node)
      else At(t, par, n)
  {
    LeftSame(t);
    assert Distinct(t.right);
    if n in Nodes(t.right.left) { Reparent(t.right.left, t.right.node, t.node, n); }
  }

  lemma {:induction false} RightAt(t: Shape, par: Node?, n: Node)
    requires t.Bin? && t.left.Bin? && Distinct(t) && n in Nodes(t)
    ensures n in Nodes(Right(t))
    ensures
      At(Right(t), par, n) ==
      if n == t.node then At(t, par, n).(left := RootOf(t.left.right), parent := t.left.node)
      else if n == t.left.node then At(t, par, n).(right := t.node, parent := par)
      else if n == RootOf(t.left.right) then At(t, par, n).(parent := t.node)
      else At(t, par, n)
  {
    RightSame(t);
    assert Distinct(t.left);
    if n in Nodes(t.left.right) { Reparent(t.left.right, t.left.node, t.node, n); }
  }

  lemma {:induction false} Rehole(c: Path, p: Node?, q: Node?, n: Node)
    requires n in PathNodes(c) && PathDistinct(c) && p != null && p !in PathNodes(c)
    ensures PathAt(c, q, n) == if n == Above(c) then Retarget(PathAt(c, p, n), p, q) else PathAt(c, p, n)
  {
  }

  lemma LeftEverywhere(c: Path, t: Shape)
    requires Apart(c, t) && t.Bin? && t.right.Bin?
    ensures Distinct(Plug(c, Left(t))) && Nodes(Plug(c, Left(t))) == Nodes(Plug(c, t))
    ensures InOrder(Plug(c, Left(t))) == InOrder(Plug(c, t))
    ensures RootOf(Plug(c, Left(t))) == if c.Top? then t.right.node else RootOf(Plug(c, t))
    ensures forall n :: n in Nodes(Plug(c, t)) ==>
              At(Plug(c, Left(t)), null, n) ==
                LeftCell(Above(c), t.node, t.right.node, RootOf(t.right.left), n, At(Plug(c, t), null, n))
  {
    LeftSame(t);
    PlugNodes(c, t);
    PlugNodes(c, Left(t));
    PlugOrder(c, t);
    PlugOrder(c, Left(t));
    PlugRoot(c, t);
    PlugRoot(c, Left(t));
    forall n | n in Nodes(Plug(c, t))
      ensures At(Plug(c, Left(t)), null, n) ==
                LeftCell(Above(c), t.node, t.right.node, RootOf(t.right.left), n, At(Plug(c, t), null, n))
    {
      PlugAt(c, t, n);
      PlugAt(c, Left(t), n);
      if n in Nodes(t) { LeftAt(t, Above(c), n); } else { Rehole(c, t.node, t.right.node, n); }
    }
  }

  lemma RightEverywhere(c: Path, t: Shape)
    requires Apart(c, t) && t.Bin? && t.left.Bin?
    ensures Distinct(Plug(c, Right(t))) && Nodes(Plug(c, Right(t))) == Nodes(Plug(c, t))
    ensures InOrder(Plug(c, Right(t))) == InOrder(Plug(c, t))
    ensures RootOf(Plug(c, Right(t))) == if c.Top? then t.left.node else RootOf(Plug(c, t))
    ensures forall n :: n in Nodes(Plug(c, t)) ==>
              At(Plug(c, Right(t)), null, n) ==
              RightCell(Above(c), t.node, t.left.node, RootOf(t.left.right), n, At(Plug(c, t), null, n))
  {
    RightSame(t);
    PlugNodes(c, t);
    PlugNodes(c, Right(t));
    PlugOrder(c, t);
    PlugOrder(c, Right(t));
    PlugRoot(c, t);
    PlugRoot(c, Right(t));
    forall n | n in Nodes(Plug(c, t))
      ensures At(Plug(c, Right(t)), null, n) ==
              RightCell(Above(c), t.node, t.left.node, RootOf(t.left.right), n, At(Plug(c, t), null, n))
    {
      PlugAt(c, t, n);
      PlugAt(c, Right(t), n);
      if n in Nodes(t) { RightAt(t, Above(c), n); } else { Rehole(c, t.node, t.left.node, n); }
    }
  }

  /** Replacing a subtree by any other: what the ancestors and side trees hold. */
  lemma Replace(c: Path, t: Shape, u: Shape)
    requires Apart(c, t) && t.Bin? && Apart(c, u)
    ensures Distinct(Plug(c, u)) && Nodes(Plug(c, u)) == PathNodes(c) + Nodes(u)
    ensures RootOf(Plug(c, u)) == if c.Top? then RootOf(u) else RootOf(Plug(c, t))
    ensures PathNodes(c) <= Nodes(Plug(c, t))
    ensures forall n :: n in PathNodes(c) ==>
              At(Plug(c, u), null, n) ==
              if n == Above(c) then Retarget(At(Plug(c, t), null, n), t.node, RootOf(u)) else At(Plug(c, t), null, n)
    ensures forall n :: n in Nodes(u) ==> At(Plug(c, u), null, n) == At(u, Above(c), n)
    ensures forall n :: n in Nodes(t) ==> n in Nodes(Plug(c, t)) && At(Plug(c, t), null, n) == At(t, Above(c), n)
  {
    PlugNodes(c, t);
    PlugNodes(c, u);
    PlugRoot(c, t);
    PlugRoot(c, u);
    forall n | n in PathNodes(c) + Nodes(u) { PlugAt(c, u, n); }
    forall n | n in PathNodes(c) + Nodes(t) { PlugAt(c, t, n); }
    forall n | n in PathNodes(c)
      ensures PathAt(c, RootOf(u), n) ==
              if n == Above(c) then Retarget(PathAt(c, t.node, n), t.node, RootOf(u)) else PathAt(c, t.node, n)
    {
      Rehole(c, t.node, RootOf(u), n);
    }
  }

  lemma PaintEverywhere(c: Path, t: Shape, red: bool)
    requires Apart(c, t) && t.Bin?
    ensures Distinct(Plug(c, t.(red := red))) && Nodes(Plug(c, t.(red := red))) == Nodes(Plug(c, t))
    ensures t.node in Nodes(Plug(c, t)) && RootOf(Plug(c, t.(red := red))) == RootOf(Plug(c, t))
    ensures InOrder(Plug(c, t.(red := red))) == InOrder(Plug(c, t))
    ensures forall n :: n in Nodes(Plug(c, t)) ==>
              At(Plug(c, t.(red := red)), null, n) ==
              if n == t.node then At(Plug(c, t), null, n).(red := red) else At(Plug(c, t), null, n)
  {
    var u := t.(red := red);
    PlugNodes(c, t);
    PlugNodes(c, u);
    PlugRoot(c, t);
    PlugRoot(c, u);
    PlugOrder(c, t);
    PlugOrder(c, u);
    forall n | n in Nodes(Plug(c, t))
      ensures At(Plug(c, u), null, n) ==
              if n == t.node then At(Plug(c, t), null, n).(red := red) else At(Plug(c, t), null, n)
    {
      PlugAt(c, t, n);
      PlugAt(c, u, n);
    }
  }

  // ----- moving the focus -----

  /** The subtree one level up. */
  ghost function Below(c: Path, t: Shape): (s: Shape)
    requires !c.Top?
    ensures s.Bin? && s.node == c.node && s.red == c.red
    ensures Plug(c.up, s) == Plug(c, t)
  {
    if c.InL? then Bin(t, c.node, c.red, c.other) else Bin(c.other, c.node, c.red, t)
  }

  /** The position of the sibling of a hole that holds `t`. */
  ghost function Aside(c: Path, t: Shape): Path
    requires !c.Top?
  {
    if c.InL? then InR(t, c.node, c.red, c.up) else InL(c.up, c.node, c.red, t)
  }

  /** The same position with another sibling. */
  ghost function Toward(c: Path, u: Shape): Path
    requires !c.Top?
  {
    if c.InL? then InL(c.up, c.node, c.red, u) else InR(u, c.node, c.red, c.up)
  }

  /** The grandparent's subtree after the three colour flips. */
  ghost function Recolored(c: Path, t: Shape): Shape
    requires !c.Top? && !c.up.Top? && c.up.other.Bin?
  {
    var b := Below(c, t);
    var g := Below(Toward(c.up, c.up.other.(red := false)), b.(red := false));
    g.(red := true)
  }

  /** The position of the focus after its grandparent was rotated away from it. */
  ghost function Outer(c: Path): Path
    requires !c.Top? && !c.up.Top?
  {
    if c.InL? then InL(c.up.up, c.node, false, Bin(c.other, c.up.node, true, c.up.other))
    else InR(Bin(c.up.other, c.up.node, true, c.other), c.node, false, c.up.up)
  }

  /** A red parent is not the root, and the grandparent is black. */
  lemma RedParent(c: Path, t: Shape, h: int)
    requires Ok(t, h) && CtxOk(c, h, false) && !c.Top? && c.red
    ensures !c.up.Top? && !c.up.red
  {
  }

  lemma RecolorOk(c: Path, t: Shape, h: int)
    requires !c.Top? && c.red && !c.up.Top? && IsRed(c.up.other)
    requires IsRed(t) && Ok(t, h) && CtxOk(c, h, false)
    ensures Ok(Recolored(c, t), h + 1) && CtxOk(c.up.up, h + 1, false)
  {
    RedParent(c, t, h);
    var b := Below(c, t);
    b := b.(red := false);
    assert Ok(b, h + 1);
    assert Ok(c.up.other.(red := false), h + 1);
  }

  lemma OuterOk(c: Path, t: Shape, h: int)
    requires !c.Top? && c.red && !c.up.Top? && !IsRed(c.up.other)
    requires IsRed(t) && Ok(t, h) && CtxOk(c, h, false)
    ensures CtxOk(Outer(c), h, false)
  {
    RedParent(c, t, h);
  }

  /** Where the insertion loop stops, a black root completes the tree. */
  lemma BlackRootOk(c: Path, t: Shape, h: int)
    requires IsRed(t) && Ok(t, h) && CtxOk(c, h, false) && (c.Top? || !c.red)
    ensures Plug(c, t).Bin? && IsRb(Plug(c, t).(red := false))
  {
    PlugRoot(c, t);
    if c.Top? {
      assert Ok(t.(red := false), h + 1);
    } else {
      PathRootIn(c, t.node);
      PlugOk(c, t, h);
      assert Plug(c, t).(red := false) == Plug(c, t);
    }
  }

  ghost function Depth(c: Path): nat {
    if c.Top? then 0 else 1 + Depth(c.up)
  }

  /** How many times the insertion loop can still run. */
  ghost function Rank(c: Path): nat {
    if !c.Top? && c.red then 1 + Depth(c) else 0
  }

  // ----- linking and unlinking nodes -----

  /** Filling an empty position with one red leaf. */
  lemma {:induction false} PlaceEverywhere(c: Path, x: Node)
    requires PathDistinct(c) && x !in PathNodes(c)
    ensures
      var w, v := Plug(c, Leaf), Plug(c, Bin(Leaf, x, true, Leaf));
      && Distinct(v) && Nodes(w) == PathNodes(c) && Nodes(v) == Nodes(w) + {x}
      && RootOf(v) == (if c.Top? then x else RootOf(w))
      && At(v, null, x) == Cell(null, null, Above(c), true)
      && forall n :: n in Nodes(w) ==>
           At(v, null, n) ==
           if n != Above(c) then At(w, null, n)
           else if c.InL? then At(w, null, n).(left := x) else At(w, null, n).(right := x)
  {
    var leaf := Bin(Leaf, x, true, Leaf);
    var w, v := Plug(c, Leaf), Plug(c, leaf);
    PlugNodes(c, Leaf);
    PlugNodes(c, leaf);
    PlugRoot(c, Leaf);
    PlugRoot(c, leaf);
    if !c.Top? {
      PathRootIn(c, null);
      PathRootSame(c, null, x);
    }
    PlugAt(c, leaf, x);
    forall n | n in Nodes(w)
      ensures At(v, null, n) ==
              if n != Above(c) then At(w, null, n)
              else if c.InL? then At(w, null, n).(left := x) else At(w, null, n).(right := x)
    {
      PlugAt(c, Leaf, n);
      PlugAt(c, leaf, n);
    }
  }

  lemma {:induction false} LeafOrder(c: Path, x: Node)
    ensures InOrder(Plug(c, Leaf)) == Before(c) + After(c)
    ensures InOrder(Plug(c, Bin(Leaf, x, true, Leaf))) == Before(c) + [x] + After(c)
  {
    PlugOrder(c, Leaf);
    PlugOrder(c, Bin(Leaf, x, true, Leaf));
    assert InOrder(Bin(Leaf, x, true, Leaf)) == [x];
  }

  lemma PathRootSame(c: Path, p: Node?, q: Node?)
    requires !c.Top?
    ensures PathRoot(c, p) == PathRoot(c, q)
  {
  }

  /** The cell of `n` after `x`, below `p`, was replaced by its child `y`. */
  ghost function SpliceCell(p: Node?, x: Node, y: Node?, n: Node, was: Cell): Cell {
    if n == y then was.(parent := p)
    else if n == p then Retarget(was, x, y)
    else was
  }

  /** Cutting a node with at most one child out of the tree. */
  lemma {:induction false} SpliceEverywhere(c: Path, t: Shape, u: Shape)
    requires Apart(c, t) && t.Bin? && ((t.left == Leaf && u == t.right) || (t.right == Leaf && u == t.left))
    ensures
      var w, v := Plug(c, t), Plug(c, u);
      && Distinct(v) && Nodes(v) == Nodes(w) - {t.node} && t.node in Nodes(w)
      && RootOf(v) == (if c.Top? then RootOf(u) else RootOf(w))
      && forall n :: n in Nodes(v) ==> At(v, null, n) == SpliceCell(Above(c), t.node, RootOf(u), n, At(w, null, n))
  {
    assert Distinct(u) && Nodes(t) == Nodes(u) + {t.node} && t.node !in Nodes(u);
    Replace(c, t, u);
    PlugNodes(c, t);
    forall n | n in Nodes(u)
      ensures At(u, Above(c), n) == if n == RootOf(u) then At(t, Above(c), n).(parent := Above(c))
                else At(t, Above(c), n)
    {
      Reparent(u, t.node, Above(c), n);
    }
  }

  /** The cell of `n` after `y` took the place of `x`, whose children were `l` and `r`. */
  ghost function RenameCell(p: Node?, x: Node, y: Node, l: Node?, r: Node?, n: Node, was: Cell): Cell {
    if n == l || n == r then was.(parent := y)
    else if n == p then Retarget(was, x, y)
    else was
  }

  lemma {:induction false} RenameEverywhere(c: Path, t: Shape, y: Node)
    requires Apart(c, t) && t.Bin? && y !in PathNodes(c) + Nodes(t)
    ensures
      var w, v := Plug(c, t), Plug(c, t.(node := y));
      && Distinct(v) && t.node in Nodes(w) && Nodes(v) == Nodes(w) - {t.node} + {y}
      && RootOf(v) == (if c.Top? then y else RootOf(w))
      && At(v, null, y) == Cell(RootOf(t.left), RootOf(t.right), Above(c), t.red)
      && forall n :: n in Nodes(v) && n != y ==>
           At(v, null, n) == RenameCell(Above(c), t.node, y, RootOf(t.left), RootOf(t.right), n, At(w, null, n))
  {
    var u := t.(node := y);
    assert Nodes(u) == Nodes(t) - {t.node} + {y};
    Replace(c, t, u);
    PlugNodes(c, t);
    forall n | n in Nodes(u) && n != y
      ensures At(u, Above(c), n) ==
              if n == RootOf(t.left) || n == RootOf(t.right) then At(t, Above(c), n).(parent := y)
              else At(t, Above(c), n)
    {
      if n in Nodes(t.left) { Reparent(t.left, t.node, y, n); } else { Reparent(t.right, t.node, y, n); }
    }
  }

  // ----- deletion: one black node too few below the focus -----

  /** Every path through the focus is one black node short; a red focus only needs painting. */
  ghost predicate Short(c: Path, u: Shape, h: int) {
    CtxOk(c, h + 1, false) && if IsRed(u) then Ok(Blacken(u), h + 1) else Ok(u, h)
  }

  ghost function EraseRank(c: Path, u: Shape): nat {
    if IsRed(u) then 0 else Depth(c)
  }

  lemma SiblingBin(c: Path, u: Shape, h: int)
    requires Short(c, u, h) && !IsRed(u) && !c.Top?
    ensures c.other.Bin?
    ensures !IsRed(c.other) ==> Ok(c.other.left, h) && Ok(c.other.right, h)
    ensures IsRed(c.other) ==> !c.red && Ok(c.other.left, h + 1) && Ok(c.other.right, h + 1)
    ensures IsRed(c.other) ==> c.other.left.Bin? && !c.other.left.red && c.other.right.Bin? && !c.other.right.red
  {
    HeightNat(u, h);
    HeightNat(c.other, h + 1);
    if IsRed(c.other) {
      HeightNat(c.other.left, h + 1);
      HeightNat(c.other.right, h + 1);
    }
  }

  /** The position of the focus after a red sibling was rotated over the parent. */
  ghost function FlippedPath(c: Path): Path
    requires !c.Top? && c.other.Bin?
  {
    if c.InL? then InL(InL(c.up, c.other.node, false, c.other.right), c.node, true, c.other.left)
    else InR(c.other.right, c.node, true, InR(c.other.left, c.other.node, false, c.up))
  }

  lemma FlipOk(c: Path, u: Shape, h: int)
    requires Short(c, u, h) && !IsRed(u) && !c.Top? && IsRed(c.other)
    ensures Short(FlippedPath(c), u, h)
  {
    SiblingBin(c, u, h);
  }

  lemma ClimbOk(c: Path, u: Shape, h: int)
    requires Short(c, u, h) && !IsRed(u) && !c.Top? && c.other.Bin? && !c.other.red
    requires !IsRed(c.other.left) && !IsRed(c.other.right)
    ensures Short(c.up, Below(Toward(c, c.other.(red := true)), u), if c.red then h else h + 1)
  {
    SiblingBin(c, u, h);
    if c.red { CtxWeaken(c.up, h + 1); }
  }

  /** The sibling after its red near child was rotated outward. */
  ghost function Outward(c: Path): Shape
    requires !c.Top? && c.other.Bin? && (if c.InL? then c.other.left.Bin? else c.other.right.Bin?)
  {
    var s := c.other;
    if c.InL? then Bin(s.left.left, s.left.node, false, Bin(s.left.right, s.node, true, s.right))
    else Bin(Bin(s.left, s.node, true, s.right.left), s.right.node, false, s.right.right)
  }

  lemma OutwardOk(c: Path, u: Shape, h: int)
    requires Short(c, u, h) && !IsRed(u) && !c.Top? && c.other.Bin? && !c.other.red
    requires
      if c.InL? then IsRed(c.other.left) && !IsRed(c.other.right) else IsRed(c.other.right) && !IsRed(c.other.left)
    ensures Short(Toward(c, Outward(c)), u, h)
  {
    SiblingBin(c, u, h);
    var o := Outward(c);
    assert if c.InL? then Ok(o.left, h) && Ok(o.right, h) else Ok(o.right, h) && Ok(o.left, h);
  }

  ghost predicate FarRed(c: Path) {
    !c.Top? && c.other.Bin? && !c.other.red && if c.InL? then IsRed(c.other.right) else IsRed(c.other.left)
  }

  /** The parent's subtree after the far red nephew paid for the missing black node. */
  ghost function Repaid(c: Path, u: Shape): Shape
    requires FarRed(c)
  {
    var s := c.other;
    if c.InL? then Bin(Bin(u, c.node, false, s.left), s.node, c.red, s.right.(red := false))
    else Bin(s.left.(red := false), s.node, c.red, Bin(s.right, c.node, false, u))
  }

  /** The parent's subtree with the final colours, before the last rotation. */
  ghost function Recoloured(c: Path, u: Shape): Shape
    requires FarRed(c)
  {
    var s := c.other;
    if c.InL? then Bin(u, c.node, false, Bin(s.left, s.node, c.red, s.right.(red := false)))
    else Bin(Bin(s.left.(red := false), s.node, c.red, s.right), c.node, false, u)
  }

  lemma RepaidOk(c: Path, u: Shape, h: int)
    requires Short(c, u, h) && !IsRed(u) && FarRed(c)
    ensures IsRb(Plug(c.up, Repaid(c, u)))
  {
    SiblingBin(c, u, h);
    var far := if c.InL? then c.other.right else c.other.left;
    assert Ok(far.(red := false), h + 1);
    var k := if c.red then h + 1 else h + 2;
    assert Ok(Repaid(c, u), k);
    PlugOk(c.up, Repaid(c, u), k);
  }

  /** Where the deletion loop stops, painting the focus black completes the tree. */
  lemma FinishOk(c: Path, u: Shape, h: int)
    requires Short(c, u, h) && (IsRed(u) || c.Top?)
    ensures IsRb(Plug(c, Blacken(u)))
  {
    if IsRed(u) {
      PlugOk(c, Blacken(u), h + 1);
    } else if c.Top? {
      assert Blacken(u) == u;
      PlugOk(c, u, h);
    }
  }

  lemma WholeShort(w: Shape) returns (h: int)
    requires IsRb(w)
    ensures Short(Top, w, h)
  {
    h :| Ok(w, h);
  }

  /** Every node of the tree has a rank in the in-order sequence. */
  lemma {:induction false} OrderNodes(t: Shape, x: Node)
    ensures x in InOrder(t) <==> x in Nodes(t)
  {
    if t.Bin? {
      OrderNodes(t.left, x);
      OrderNodes(t.right, x);
    }
  }

  lemma {:induction false} OrderDistinct(t: Shape, i: nat, j: nat)
    requires Distinct(t) && i < j < |InOrder(t)|
    ensures InOrder(t)[i] != InOrder(t)[j]
  {
    var k, x, y := |InOrder(t.left)|, InOrder(t)[i], InOrder(t)[j];
    if j < k {
      OrderDistinct(t.left, i, j);
    } else if i > k {
      OrderDistinct(t.right, i - k - 1, j - k - 1);
    } else {
      if i < k { assert x == InOrder(t.left)[i]; }
      if j > k { assert y == InOrder(t.right)[j - k - 1]; }
      OrderNodes(t.left, x);
      OrderNodes(t.right, y);
    }
  }

  /** The in-order sequence around the root of a focused subtree. */
  lemma {:induction false} OrderAround(c: Path, t: Shape)
    requires t.Bin?
    ensures InOrder(Plug(c, t)) == (Before(c) + InOrder(t.left)) + [t.node] + (InOrder(t.right) + After(c))
  {
    PlugOrder(c, t);
  }

  lemma {:induction false} OrderSplice(c: Path, t: Shape)
    requires t.Bin? && (t.left == Leaf || t.right == Leaf)
    ensures InOrder(Plug(c, Only(t))) == (Before(c) + InOrder(t.left)) + (InOrder(t.right) + After(c))
  {
    PlugOrder(c, Only(t));
  }

  /** The only child of a node that lacks one. */
  ghost function Only(s: Shape): Shape
    requires s.Bin?
  {
    if s.left == Leaf then s.right else s.left
  }

  /** A right child without a left child takes the place of its parent. */
  lemma {:induction false} NearEverywhere(c: Path, t: Shape)
    requires Apart(c, t) && t.Bin? && t.left.Bin? && t.right.Bin? && t.right.left == Leaf
    ensures
      var w, v, y := Plug(c, t), Plug(c, Bin(t.left, t.right.node, t.red, t.right.right)), t.right.node;
      && Distinct(v) && t.node in Nodes(w) && Nodes(v) == Nodes(w) - {t.node} && y in Nodes(v)
      && RootOf(v) == (if c.Top? then y else RootOf(w))
      && At(v, null, y) == Cell(RootOf(t.left), RootOf(t.right.right), Above(c), t.red)
      && forall n :: n in Nodes(v) && n != y ==>
           At(v, null, n) == RenameCell(Above(c), t.node, y, RootOf(t.left), null, n, At(w, null, n))
  {
    var y := t.right.node;
    var u := Bin(t.left, y, t.red, t.right.right);
    assert Distinct(t.right) && Distinct(u) && Nodes(t.right) == {y} + Nodes(t.right.right);
    assert Nodes(u) == Nodes(t) - {t.node};
    PlugNodes(c, t);
    Replace(c, t, u);
    forall n | n in Nodes(u) && n != y
      ensures At(u, Above(c), n) == RenameCell(Above(c), t.node, y, RootOf(t.left), null, n, At(t, Above(c), n))
    {
      if n in Nodes(t.left) { Reparent(t.left, t.node, y, n); }
    }
  }

  /** The in-order sequence after the successor of `t.node` moved into its place. */
  lemma {:induction false} MovedUp(c: Path, t: Shape, inner: Path, s: Shape)
    requires t.Bin? && Plug(inner, s) == t.right && s.Bin? && s.left == Leaf && Before(inner) == []
    ensures InOrder(Plug(c, Bin(t.left, s.node, t.red, Plug(inner, s.right)))) ==
            (Before(c) + InOrder(t.left)) + (InOrder(t.right) + After(c))
  {
    var rest := Plug(inner, s.right);
    PlugOrder(inner, s);
    PlugOrder(inner, s.right);
    assert InOrder(t.right) == [s.node] + InOrder(rest);
    PlugOrder(c, Bin(t.left, s.node, t.red, rest));
  }

  class RbRoot {
    var node: Node?
    ghost var tree: Shape
    ghost var nodes: set<Node>

    constructor ()
      ensures Valid() && tree == Leaf && nodes == {}
    {
      node, tree, nodes := null, Leaf, {};
      new;
      assert Ok(tree, 0);
    }

    /** The heap is a tree with consistent parent links, of shape `tree`. */
    ghost predicate Linked()
      reads this, nodes`left, nodes`right, nodes`parent, nodes`red
    {
      && nodes == Nodes(tree) && node == RootOf(tree) && Distinct(tree)
      && forall n :: n in nodes ==> n.Now() == At(tree, null, n)
    }

    /** The fields around a position: the root of the subtree and the node above it. */
    lemma Around(c: Path, t: Shape)
      requires Linked() && tree == Plug(c, t)
      ensures Apart(c, t) && nodes == PathNodes(c) + Nodes(t)
      ensures c.Top? ==> node == RootOf(t)
      ensures t.Bin? ==> t.node.Now() == (Cell(RootOf(t.left), RootOf(t.right), Above(c), t.red))
      ensures c.InL? ==> c.node.Now() == (Cell(RootOf(t), RootOf(c.other), Above(c.up), c.red))
      ensures c.InR? ==> c.node.Now() == (Cell(RootOf(c.other), RootOf(t), Above(c.up), c.red))
      ensures !c.Top? ==> node != RootOf(t)
      ensures !c.Top? && t.Bin? ==> RootOf(c.other) != t.node
    {
      PlugNodes(c, t);
      PlugRoot(c, t);
      if t.Bin? { PlugAt(c, t, t.node); }
      if !c.Top? {
        PlugAt(c, t, c.node);
        PathRootIn(c, RootOf(t));
      }
    }

    /** The link assignments of a left rotation, node by node. */
    method TurnLeft(x: Node, ghost s: set<Node>)
      requires x in s && x.right != null && x.right in s && x != x.right
      requires x.parent != null ==> x.parent in s && x.parent != x && x.parent != x.right
      requires x.right.left != null ==> x.right.left in s && x.right.left !in {x, x.right} && x.right.left != x.parent
      modifies this`node, s`left, s`right, s`parent
      ensures node == if old(x.parent) == null then old(x.right) else old(node)
      ensures forall n :: n in s ==> n.red == old(n.red)
      ensures forall n :: n in s ==>
                n.Now() == LeftCell(old(x.parent), x, old(x.right), old(x.right.left), n, old(n.Now()))
    {
      var right := x.right;
      x.right := right.left;
      if right.left != null {
        right.left.parent := x;
      }
      right.parent := x.parent;
      if x.parent == null {
        node := right;
      } else if x == x.parent.left {
        x.parent.left := right;
      } else {
        x.parent.right := right;
      }
      right.left := x;
      x.parent := right;
    }

    /** The link assignments of a right rotation, node by node. */
    method TurnRight(x: Node, ghost s: set<Node>)
      requires x in s && x.left != null && x.left in s && x != x.left
      requires x.parent != null ==> x.parent in s && x.parent != x && x.parent != x.left
      requires x.parent != null ==> (x.parent.left == x <==> x.parent.right != x)
      requires x.left.right != null ==> x.left.right in s && x.left.right !in {x, x.left} && x.left.right != x.parent
      modifies this`node, s`left, s`right, s`parent
      ensures node == if old(x.parent) == null then old(x.left) else old(node)
      ensures forall n :: n in s ==>
                n.Now() == RightCell(old(x.parent), x, old(x.left), old(x.left.right), n, old(n.Now()))
    {
      var left := x.left;
      x.left := left.right;
      if left.right != null {
        left.right.parent := x;
      }
      left.parent := x.parent;
      if x.parent == null {
        node := left;
      } else if x == x.parent.right {
        x.parent.right := left;
      } else {
        x.parent.left := left;
      }
      left.right := x;
      x.parent := left;
    }

    method RotateLeft(x: Node, ghost c: Path, ghost t: Shape)
      requires Linked() && tree == Plug(c, t) && t.Bin? && t.node == x && t.right.Bin?
      modifies this, nodes`left, nodes`right, nodes`parent
      ensures Linked() && tree == Plug(c, Left(t))
      ensures nodes == old(nodes) && InOrder(tree) == old(InOrder(tree))
    {
      Around(c, t);
      Around(InR(t.left, x, t.red, c), t.right);
      LeftEverywhere(c, t);
      TurnLeft(x, nodes);
      tree := Plug(c, Left(t));
      nodes := Nodes(tree);
    }

    method RotateRight(x: Node, ghost c: Path, ghost t: Shape)
      requires Linked() && tree == Plug(c, t) && t.Bin? && t.node == x && t.left.Bin?
      modifies this, nodes`left, nodes`right, nodes`parent
      ensures Linked() && tree == Plug(c, Right(t))
      ensures nodes == old(nodes) && InOrder(tree) == old(InOrder(tree))
    {
      Around(c, t);
      Around(InL(c, x, t.red, t.right), t.left);
      RightEverywhere(c, t);
      TurnRight(x, nodes);
      tree := Plug(c, Right(t));
      nodes := Nodes(tree);
    }

    /** `x->color = ...`; the ghost arguments say where `x` is. */
    method Paint(x: Node, red: bool, ghost c: Path, ghost t: Shape)
      requires Linked() && tree == Plug(c, t) && t.Bin? && t.node == x
      modifies this`tree, this`nodes, x`red
      ensures Linked() && tree == Plug(c, t.(red := red))
      ensures nodes == old(nodes) && InOrder(tree) == old(InOrder(tree))
    {
      PlugNodes(c, t);
      PaintEverywhere(c, t, red);
      x.red := red;
      tree := Plug(c, t.(red := red));
      nodes := Nodes(tree);
    }

    /** `x` is red, fits its position but for a red parent, and is the focus. */
    ghost predicate RedAt(x: Node, c: Path, t: Shape, h: int)
      reads this, nodes`left, nodes`right, nodes`parent, nodes`red
    {
      Linked() && tree == Plug(c, t) && IsRed(t) && t.node == x && Ok(t, h) && CtxOk(c, h, false)
    }

    /** A red uncle: push the red up to the grandparent. */
    method Recolor(parent: Node, uncle: Node, grandparent: Node, ghost c: Path, ghost t: Shape, ghost h: int)
      requires t.Bin? && RedAt(t.node, c, t, h) && !c.Top? && c.red && !c.up.Top? && IsRed(c.up.other)
      requires parent == c.node && grandparent == c.up.node && uncle == c.up.other.node
      modifies this`tree, this`nodes, parent`red, uncle`red, grandparent`red
      ensures RedAt(grandparent, c.up.up, Recolored(c, t), h + 1)
      ensures nodes == old(nodes) && InOrder(tree) == old(InOrder(tree))
    {
      RecolorOk(c, t, h);
      ghost var b, u := Below(c, t), c.up.other;
      Paint(parent, false, c.up, b);
      Paint(uncle, false, Aside(c.up, b.(red := false)), u);
      ghost var g := Below(Toward(c.up, u.(red := false)), b.(red := false));
      Paint(grandparent, true, c.up.up, g);
    }

    method RotateOuterRight(parent: Node, grandparent: Node, ghost c: Path, ghost t: Shape, ghost h: int)
      requires t.Bin? && RedAt(t.node, c, t, h) && c.InL? && c.red && c.up.InL? && !IsRed(c.up.other)
      requires parent == c.node && grandparent == c.up.node
      modifies this, nodes`left, nodes`right, nodes`parent, nodes`red
      ensures RedAt(t.node, Outer(c), t, h)
      ensures nodes == old(nodes) && InOrder(tree) == old(InOrder(tree))
    {
      OuterOk(c, t, h);
      PlugNodes(c, t);
      ghost var b := Below(c, t);
      Paint(parent, false, c.up, b);
      ghost var g := Below(c.up, b.(red := false));
      Paint(grandparent, true, c.up.up, g);
      RotateRight(grandparent, c.up.up, g.(red := true));
    }

    method RotateOuterLeft(parent: Node, grandparent: Node, ghost c: Path, ghost t: Shape, ghost h: int)
      requires t.Bin? && RedAt(t.node, c, t, h) && c.InR? && c.red && c.up.InR? && !IsRed(c.up.other)
      requires parent == c.node && grandparent == c.up.node
      modifies this, nodes`left, nodes`right, nodes`parent, nodes`red
      ensures RedAt(t.node, Outer(c), t, h)
      ensures nodes == old(nodes) && InOrder(tree) == old(InOrder(tree))
    {
      OuterOk(c, t, h);
      PlugNodes(c, t);
      ghost var b := Below(c, t);
      Paint(parent, false, c.up, b);
      ghost var g := Below(c.up, b.(red := false));
      Paint(grandparent, true, c.up.up, g);
      RotateLeft(grandparent, c.up.up, g.(red := true));
    }

    /** Turn an inner red grandchild into an outer one. */
    method StraightenLeft(parent: Node, ghost c0: Path, ghost t0: Shape, ghost h: int)
      returns (ghost t: Shape, ghost c: Path)
      requires t0.Bin? && RedAt(t0.node, c0, t0, h) && c0.InR? && c0.red && c0.up.InL? && parent == c0.node
      modifies this, nodes`left, nodes`right, nodes`parent
      ensures c.InL? && c.red && c.up == c0.up && RedAt(parent, c, t, h)
      ensures parent.parent == c.node && c.node.parent == c.up.node
      ensures nodes == old(nodes) && InOrder(tree) == old(InOrder(tree))
    {
      RedParent(c0, t0, h);
      RotateLeft(parent, c0.up, Below(c0, t0));
      t := Bin(c0.other, parent, true, t0.left);
      c := InL(c0.up, t0.node, true, t0.right);
      Around(c, t);
    }

    method StraightenRight(parent: Node, ghost c0: Path, ghost t0: Shape, ghost h: int)
      returns (ghost t: Shape, ghost c: Path)
      requires t0.Bin? && RedAt(t0.node, c0, t0, h) && c0.InL? && c0.red && c0.up.InR? && parent == c0.node
      modifies this, nodes`left, nodes`right, nodes`parent
      ensures c.InR? && c.red && c.up == c0.up && RedAt(parent, c, t, h)
      ensures parent.parent == c.node && c.node.parent == c.up.node
      ensures nodes == old(nodes) && InOrder(tree) == old(InOrder(tree))
    {
      RedParent(c0, t0, h);
      RotateRight(parent, c0.up, Below(c0, t0));
      t := Bin(t0.right, parent, true, c0.other);
      c := InR(t0.left, t0.node, true, c0.up);
      Around(c, t);
    }

    /** One pass of the insertion loop below a left parent. */
    method InsertPassLeft(n: Node, ghost c0: Path, ghost t0: Shape, ghost h0: int)
      returns (x: Node, ghost c: Path, ghost t: Shape, ghost h: int)
      requires
        && RedAt(n, c0, t0, h0) && !c0.Top? && c0.red && c0.up.InL? && n.parent == c0.node
        && n.parent.parent == c0.up.node
      modifies this, nodes`left, nodes`right, nodes`parent, nodes`red
      ensures RedAt(x, c, t, h) && Rank(c) < Rank(c0)
      ensures nodes == old(nodes) && InOrder(tree) == old(InOrder(tree))
    {
      x, c, t, h := n, c0, t0, h0;
      Around(c, t);
      Around(c.up, Below(c, t));
      Around(Aside(c.up, Below(c, t)), c.up.other);
      var parent := x.parent;
      var grandparent := parent.parent;
      var uncle := grandparent.right;
      if uncle != null && uncle.red {
        Recolor(parent, uncle, grandparent, c, t, h);
        assert Depth(c) == 1 + Depth(c.up) == 2 + Depth(c.up.up);
        x, c, t, h := grandparent, c.up.up, Recolored(c, t), h + 1;
        return;
      }
      if x == parent.right {
        x := parent;
        t, c := StraightenLeft(x, c, t, h);
        parent := x.parent;
        grandparent := parent.parent;
      }
      RotateOuterRight(parent, grandparent, c, t, h);
      c := Outer(c);
    }

    /** One pass of the insertion loop below a right parent. */
    method InsertPassRight(n: Node, ghost c0: Path, ghost t0: Shape, ghost h0: int)
      returns (x: Node, ghost c: Path, ghost t: Shape, ghost h: int)
      requires
        && RedAt(n, c0, t0, h0) && !c0.Top? && c0.red && c0.up.InR? && n.parent == c0.node
        && n.parent.parent == c0.up.node
      modifies this, nodes`left, nodes`right, nodes`parent, nodes`red
      ensures RedAt(x, c, t, h) && Rank(c) < Rank(c0)
      ensures nodes == old(nodes) && InOrder(tree) == old(InOrder(tree))
    {
      x, c, t, h := n, c0, t0, h0;
      Around(c, t);
      Around(c.up, Below(c, t));
      Around(Aside(c.up, Below(c, t)), c.up.other);
      var parent := x.parent;
      var grandparent := parent.parent;
      var uncle := grandparent.left;
      if uncle != null && uncle.red {
        Recolor(parent, uncle, grandparent, c, t, h);
        assert Depth(c) == 1 + Depth(c.up) == 2 + Depth(c.up.up);
        x, c, t, h := grandparent, c.up.up, Recolored(c, t), h + 1;
        return;
      }
      if x == parent.left {
        x := parent;
        t, c := StraightenRight(x, c, t, h);
        parent := x.parent;
        grandparent := parent.parent;
      }
      RotateOuterLeft(parent, grandparent, c, t, h);
      c := Outer(c);
    }

    /** Restore the colours after a red leaf was linked. */
    method InsertColor(n: Node, ghost path: Path, ghost sub: Shape, ghost height: int)
      requires RedAt(n, path, sub, height)
      modifies this, nodes`left, nodes`right, nodes`parent, nodes`red
      ensures Linked() && IsRb(tree)
      ensures nodes == old(nodes) && InOrder(tree) == old(InOrder(tree))
    {
      var x: Node := n;
      ghost var c, t, h := path, sub, height;
      Around(c, t);
      while x != node && x.parent.red
        invariant RedAt(x, c, t, h)
        invariant nodes == old(nodes) && InOrder(tree) == old(InOrder(tree))
        invariant if c.Top? then x == node else x != node && x.parent == c.node && c.node.red == c.red
        decreases Rank(c)
      {
        RedParent(c, t, h);
        Around(c, t);
        Around(c.up, Below(c, t));
        if x.parent == x.parent.parent.left {
          x, c, t, h := InsertPassLeft(x, c, t, h);
        } else {
          x, c, t, h := InsertPassRight(x, c, t, h);
        }
        Around(c, t);
      }
      BlackRootOk(c, t, h);
      Around(Top, tree);
      Paint(node, false, Top, tree);
    }

    ghost predicate Valid()
      reads this, nodes`left, nodes`right, nodes`parent, nodes`red
    {
      Linked() && IsRb(tree)
    }

    /** `rb_link_node`: hang `x` as a red leaf at an empty position. */
    method LinkNode(x: Node, parent: Node?, onLeft: bool, ghost c: Path)
      requires Linked() && tree == Plug(c, Leaf) && x !in nodes
      requires parent == Above(c) && (c.Top? || onLeft == c.InL?)
      modifies this, x`left, x`right, x`parent, x`red, nodes`left, nodes`right
      ensures Linked() && tree == Plug(c, Bin(Leaf, x, true, Leaf))
      ensures nodes == old(nodes) + {x}
    {
      Around(c, Leaf);
      PlaceEverywhere(c, x);
      Hang(x, parent, onLeft, nodes);
      tree := Plug(c, Bin(Leaf, x, true, Leaf));
      nodes := Nodes(tree);
    }

    /** The link assignments of `rb_link_node`, node by node. */
    method Hang(x: Node, parent: Node?, onLeft: bool, ghost s: set<Node>)
      requires x !in s && (parent != null ==> parent in s)
      modifies this`node, x`left, x`right, x`parent, x`red, s`left, s`right
      ensures node == if parent == null then x else old(node)
      ensures x.Now() == Cell(null, null, parent, true)
      ensures forall n :: n in s ==>
                n.Now() == if n != parent then old(n.Now()) else if onLeft then old(n.Now()).(left := x)
                  else old(n.Now()).(right := x)
    {
      x.parent := parent;
      x.left := null;
      x.right := null;
      x.red := true;
      if parent == null {
        node := x;
      } else if onLeft {
        parent.left := x;
      } else {
        parent.right := x;
      }
    }

    /** Link at an empty position and rebalance. */
    method Insert(x: Node, parent: Node?, onLeft: bool, ghost c: Path)
      requires Valid() && tree == Plug(c, Leaf) && x !in nodes
      requires parent == Above(c) && (c.Top? || onLeft == c.InL?)
      modifies this, x`left, x`right, x`parent, x`red
      modifies nodes`left, nodes`right, nodes`parent, nodes`red
      ensures Valid() && nodes == old(nodes) + {x}
      ensures old(InOrder(tree)) == Before(c) + After(c)
      ensures InOrder(tree) == Before(c) + [x] + After(c)
    {
      ghost var h := UnplugOk(c, Leaf);
      LeafOrder(c, x);
      LinkNode(x, parent, onLeft, c);
      InsertColor(x, c, Bin(Leaf, x, true, Leaf), h);
    }

    /** `rb_transplant`, node by node. */
    method Transplant(x: Node, y: Node?, ghost s: set<Node>)
      requires x in s && (y != null ==> y in s) && y != x
      requires x.parent != null ==>
                 x.parent in s && x.parent !in {x, y} && (x.parent.left == x <==> x.parent.right != x)
      modifies this`node, s`left, s`right, s`parent
      ensures node == if old(x.parent) == null then y else old(node)
      ensures forall n :: n in s ==> n.Now() == SpliceCell(old(x.parent), x, y, n, old(n.Now()))
    {
      if x.parent == null {
        node := y;
      } else if x == x.parent.left {
        x.parent.left := y;
      } else {
        x.parent.right := y;
      }
      if y != null {
        y.parent := x.parent;
      }
    }

    /** Remove a node that has at most one child. */
    method Splice(x: Node, y: Node?, ghost c: Path, ghost t: Shape, ghost u: Shape)
      requires Linked() && tree == Plug(c, t) && t.Bin? && t.node == x && y == RootOf(u)
      requires (t.left == Leaf && u == t.right) || (t.right == Leaf && u == t.left)
      modifies this, nodes`left, nodes`right, nodes`parent
      ensures Linked() && tree == Plug(c, u) && nodes == old(nodes) - {x}
      ensures unchanged(x)
    {
      Around(c, t);
      SpliceEverywhere(c, t, u);
      Transplant(x, y, nodes);
      tree := Plug(c, u);
      nodes := Nodes(tree);
    }

    ghost predicate ShortAt(x: Node?, parent: Node?, c: Path, u: Shape, h: int)
      reads this, nodes`left, nodes`right, nodes`parent, nodes`red
    {
      Linked() && tree == Plug(c, u) && x == RootOf(u) && parent == Above(c) && Short(c, u, h)
    }

    /** A red sibling on the right: rotate it over the parent. */
    method FlipLeft(parent: Node, sibling: Node, ghost c: Path, ghost u: Shape, ghost h: int)
      requires ShortAt(RootOf(u), parent, c, u, h) && !IsRed(u) && c.InL? && IsRed(c.other) && sibling == c.other.node
      modifies this, nodes`left, nodes`right, nodes`parent, nodes`red
      ensures ShortAt(RootOf(u), parent, FlippedPath(c), u, h)
      ensures nodes == old(nodes) && InOrder(tree) == old(InOrder(tree))
    {
      FlipOk(c, u, h);
      Around(c, u);
      ghost var sib := c.other.(red := false);
      Paint(sibling, false, Aside(c, u), c.other);
      ghost var b := Below(Toward(c, sib), u);
      Paint(parent, true, c.up, b);
      RotateLeft(parent, c.up, b.(red := true));
    }

    method FlipRight(parent: Node, sibling: Node, ghost c: Path, ghost u: Shape, ghost h: int)
      requires ShortAt(RootOf(u), parent, c, u, h) && !IsRed(u) && c.InR? && IsRed(c.other) && sibling == c.other.node
      modifies this, nodes`left, nodes`right, nodes`parent, nodes`red
      ensures ShortAt(RootOf(u), parent, FlippedPath(c), u, h)
      ensures nodes == old(nodes) && InOrder(tree) == old(InOrder(tree))
    {
      FlipOk(c, u, h);
      Around(c, u);
      ghost var sib := c.other.(red := false);
      Paint(sibling, false, Aside(c, u), c.other);
      ghost var b := Below(Toward(c, sib), u);
      Paint(parent, true, c.up, b);
      RotateRight(parent, c.up, b.(red := true));
    }

    /** Two black nephews: the sibling turns red and the shortage moves up. */
    method Climb(sibling: Node, ghost c: Path, ghost u: Shape, ghost h: int)
      requires ShortAt(RootOf(u), Above(c), c, u, h) && !IsRed(u) && !c.Top? && c.other.Bin? && !c.other.red
      requires sibling == c.other.node && !IsRed(c.other.left) && !IsRed(c.other.right)
      modifies this`tree, this`nodes, sibling`red
      ensures ShortAt(c.node, Above(c.up), c.up, Below(Toward(c, c.other.(red := true)), u), if c.red then h else h + 1)
      ensures nodes == old(nodes) && InOrder(tree) == old(InOrder(tree))
    {
      ClimbOk(c, u, h);
      Paint(sibling, true, Aside(c, u), c.other);
    }

    /** A red near nephew on the left of the sibling: rotate it outward. */
    method NearLeft(sibling: Node, ghost c: Path, ghost u: Shape, ghost h: int)
      requires ShortAt(RootOf(u), Above(c), c, u, h) && !IsRed(u) && c.InL? && c.other.Bin? && !c.other.red
      requires sibling == c.other.node && IsRed(c.other.left) && !IsRed(c.other.right)
      modifies this, nodes`left, nodes`right, nodes`parent, nodes`red
      ensures ShortAt(RootOf(u), Above(c), Toward(c, Outward(c)), u, h)
      ensures nodes == old(nodes) && InOrder(tree) == old(InOrder(tree))
    {
      OutwardOk(c, u, h);
      Around(c, u);
      Around(Aside(c, u), c.other);
      ghost var s, a := c.other, Aside(c, u);
      Paint(sibling.left, false, InL(a, s.node, s.red, s.right), s.left);
      ghost var s1 := s.(left := s.left.(red := false));
      Paint(sibling, true, a, s1);
      RotateRight(sibling, a, s1.(red := true));
    }

    method NearRight(sibling: Node, ghost c: Path, ghost u: Shape, ghost h: int)
      requires ShortAt(RootOf(u), Above(c), c, u, h) && !IsRed(u) && c.InR? && c.other.Bin? && !c.other.red
      requires sibling == c.other.node && IsRed(c.other.right) && !IsRed(c.other.left)
      modifies this, nodes`left, nodes`right, nodes`parent, nodes`red
      ensures ShortAt(RootOf(u), Above(c), Toward(c, Outward(c)), u, h)
      ensures nodes == old(nodes) && InOrder(tree) == old(InOrder(tree))
    {
      OutwardOk(c, u, h);
      Around(c, u);
      Around(Aside(c, u), c.other);
      ghost var s, a := c.other, Aside(c, u);
      Paint(sibling.right, false, InR(s.left, s.node, s.red, a), s.right);
      ghost var s1 := s.(right := s.right.(red := false));
      Paint(sibling, true, a, s1);
      RotateLeft(sibling, a, s1.(red := true));
    }

    /** A red far nephew: recolour ... */
    method RepayColors(parent: Node, sibling: Node, far: Node, ghost c: Path, ghost u: Shape)
      requires Linked() && tree == Plug(c, u) && FarRed(c) && parent == c.node && sibling == c.other.node
      requires parent.red == c.red && far == (if c.InL? then c.other.right.node else c.other.left.node)
      modifies this`tree, this`nodes, parent`red, sibling`red, far`red
      ensures Linked() && tree == Plug(c.up, Recoloured(c, u))
      ensures nodes == old(nodes) && InOrder(tree) == old(InOrder(tree))
    {
      ghost var s := c.other;
      Paint(sibling, parent.red, Aside(c, u), s);
      ghost var s1 := s.(red := c.red);
      ghost var b := Below(Toward(c, s1), u);
      Paint(parent, false, c.up, b);
      ghost var a := if c.InL? then InR(u, c.node, false, c.up) else InL(c.up, c.node, false, u);
      ghost var cf := if c.InL? then InR(s1.left, s1.node, s1.red, a) else InL(a, s1.node, s1.red, s1.right);
      Paint(far, false, cf, if c.InL? then s1.right else s1.left);
    }

    /** ... rotate the parent, done. */
    method RepayLeft(parent: Node, sibling: Node, ghost c: Path, ghost u: Shape, ghost h: int)
      requires ShortAt(RootOf(u), parent, c, u, h) && !IsRed(u) && c.InL? && FarRed(c) && sibling == c.other.node
      modifies this, nodes`left, nodes`right, nodes`parent, nodes`red
      ensures Linked() && tree == Plug(c.up, Repaid(c, u)) && IsRb(tree)
      ensures nodes == old(nodes) && InOrder(tree) == old(InOrder(tree))
    {
      RepaidOk(c, u, h);
      Around(c, u);
      Around(Aside(c, u), c.other);
      RepayColors(parent, sibling, sibling.right, c, u);
      RotateLeft(parent, c.up, Recoloured(c, u));
    }

    method RepayRight(parent: Node, sibling: Node, ghost c: Path, ghost u: Shape, ghost h: int)
      requires ShortAt(RootOf(u), parent, c, u, h) && !IsRed(u) && c.InR? && FarRed(c) && sibling == c.other.node
      modifies this, nodes`left, nodes`right, nodes`parent, nodes`red
      ensures Linked() && tree == Plug(c.up, Repaid(c, u)) && IsRb(tree)
      ensures nodes == old(nodes) && InOrder(tree) == old(InOrder(tree))
    {
      RepaidOk(c, u, h);
      Around(c, u);
      Around(Aside(c, u), c.other);
      RepayColors(parent, sibling, sibling.left, c, u);
      RotateRight(parent, c.up, Recoloured(c, u));
    }

    /** One pass of the deletion loop when the short side is a left child. */
    method ErasePassLeft(p: Node, ghost c0: Path, ghost u0: Shape, ghost h0: int)
      returns (x: Node?, parent: Node?, ghost c: Path, ghost u: Shape, ghost h: int)
      requires ShortAt(RootOf(u0), p, c0, u0, h0) && !IsRed(u0) && c0.InL?
      modifies this, nodes`left, nodes`right, nodes`parent, nodes`red
      ensures ShortAt(x, parent, c, u, h) && EraseRank(c, u) < EraseRank(c0, u0)
      ensures nodes == old(nodes) && InOrder(tree) == old(InOrder(tree))
    {
      c, u, h := c0, u0, h0;
      SiblingBin(c, u, h);
      Around(c, u);
      Around(Aside(c, u), c.other);
      var sibling := p.right;
      if sibling.red {
        FlipLeft(p, sibling, c, u, h);
        c := FlippedPath(c);
        SiblingBin(c, u, h);
        Around(c, u);
        Around(Aside(c, u), c.other);
        sibling := p.right;
      }
      if sibling == null {
        assert false;
      }
      Nephews(c, u);
      if (sibling.left == null || !sibling.left.red) && (sibling.right == null || !sibling.right.red) {
        Climb(sibling, c, u, h);
        x := p;
        c, u, h := c.up, Below(Toward(c, c.other.(red := true)), u), if c.red then h else h + 1;
        Around(c, u);
        parent := p.parent;
      } else {
        if sibling.right == null || !sibling.right.red {
          NearLeft(sibling, c, u, h);
          c := Toward(c, Outward(c));
          Around(c, u);
          sibling := p.right;
        }
        RepayLeft(p, sibling, c, u, h);
        c, u := Top, tree;
        h := WholeShort(tree);
        x, parent := node, null;
      }
    }

    method ErasePassRight(p: Node, ghost c0: Path, ghost u0: Shape, ghost h0: int)
      returns (x: Node?, parent: Node?, ghost c: Path, ghost u: Shape, ghost h: int)
      requires ShortAt(RootOf(u0), p, c0, u0, h0) && !IsRed(u0) && c0.InR?
      modifies this, nodes`left, nodes`right, nodes`parent, nodes`red
      ensures ShortAt(x, parent, c, u, h) && EraseRank(c, u) < EraseRank(c0, u0)
      ensures nodes == old(nodes) && InOrder(tree) == old(InOrder(tree))
    {
      c, u, h := c0, u0, h0;
      SiblingBin(c, u, h);
      Around(c, u);
      Around(Aside(c, u), c.other);
      var sibling := p.left;
      if sibling.red {
        FlipRight(p, sibling, c, u, h);
        c := FlippedPath(c);
        SiblingBin(c, u, h);
        Around(c, u);
        Around(Aside(c, u), c.other);
        sibling := p.left;
      }
      if sibling == null {
        assert false;
      }
      Nephews(c, u);
      if (sibling.right == null || !sibling.right.red) && (sibling.left == null || !sibling.left.red) {
        Climb(sibling, c, u, h);
        x := p;
        c, u, h := c.up, Below(Toward(c, c.other.(red := true)), u), if c.red then h else h + 1;
        Around(c, u);
        parent := p.parent;
      } else {
        if sibling.left == null || !sibling.left.red {
          NearRight(sibling, c, u, h);
          c := Toward(c, Outward(c));
          Around(c, u);
          sibling := p.left;
        }
        RepayRight(p, sibling, c, u, h);
        c, u := Top, tree;
        h := WholeShort(tree);
        x, parent := node, null;
      }
    }

    /** The colours of the sibling's children, read from the heap. */
    lemma Nephews(c: Path, u: Shape)
      requires Linked() && tree == Plug(c, u) && !c.Top? && c.other.Bin?
      ensures
        var s := c.other;
        && s.node.Now() == Cell(RootOf(s.left), RootOf(s.right), c.node, s.red)
        && (s.left.Bin? ==> s.left.node.red == s.left.red)
        && (s.right.Bin? ==> s.right.node.red == s.right.red)
    {
      var s, a := c.other, Aside(c, u);
      Around(a, s);
      Around(InL(a, s.node, s.red, s.right), s.left);
      Around(InR(s.left, s.node, s.red, a), s.right);
    }

    /** Restore the black count after a black node was cut out. */
    method EraseFixup(n: Node?, above: Node?, ghost path: Path, ghost sub: Shape, ghost height: int)
      requires ShortAt(n, above, path, sub, height)
      modifies this, nodes`left, nodes`right, nodes`parent, nodes`red
      ensures Valid()
      ensures nodes == old(nodes) && InOrder(tree) == old(InOrder(tree))
    {
      var x, parent := n, above;
      ghost var c, u, h := path, sub, height;
      Around(c, u);
      while x != node && (x == null || !x.red)
        invariant ShortAt(x, parent, c, u, h)
        invariant nodes == old(nodes) && InOrder(tree) == old(InOrder(tree))
        invariant c.Top? <==> x == node
        invariant x != null ==> x in nodes && x.red == u.red
        decreases EraseRank(c, u)
      {
        Around(c, u);
        SiblingBin(c, u, h);
        if x == parent.left {
          x, parent, c, u, h := ErasePassLeft(parent, c, u, h);
        } else {
          x, parent, c, u, h := ErasePassRight(parent, c, u, h);
        }
        Around(c, u);
      }
      FinishOk(c, u, h);
      if x != null {
        Paint(x, false, c, u);
      }
    }

    // ----- walking in order -----

    /** The leftmost node of the subtree at `n`. */
    method Minimum(n: Node, ghost c: Path, ghost t: Shape) returns (y: Node, ghost inner: Path, ghost s: Shape)
      requires Linked() && tree == Plug(c, t) && t.Bin? && t.node == n
      ensures Plug(inner, s) == t && s.Bin? && s.node == y && s.left == Leaf && Before(inner) == []
      ensures Linked() && y in nodes
    {
      y, inner, s := n, Top, t;
      Around(c, t);
      while y.left != null
        invariant Linked() && Plug(inner, s) == t && s.Bin? && s.node == y && Before(inner) == []
        invariant y in nodes && y.left == RootOf(s.left)
        decreases s
      {
        y := y.left;
        inner, s := InL(inner, s.node, s.red, s.right), s.left;
        PlugAppend(inner, c, s);
        Around(Append(inner, c), s);
      }
    }

    /** The rightmost node of the subtree at `n`. */
    method Maximum(n: Node, ghost c: Path, ghost t: Shape) returns (y: Node, ghost inner: Path, ghost s: Shape)
      requires Linked() && tree == Plug(c, t) && t.Bin? && t.node == n
      ensures Plug(inner, s) == t && s.Bin? && s.node == y && s.right == Leaf && After(inner) == []
      ensures Linked() && y in nodes
    {
      y, inner, s := n, Top, t;
      Around(c, t);
      while y.right != null
        invariant Linked() && Plug(inner, s) == t && s.Bin? && s.node == y && After(inner) == []
        invariant y in nodes && y.right == RootOf(s.right)
        decreases s
      {
        y := y.right;
        inner, s := InR(s.left, s.node, s.red, inner), s.right;
        PlugAppend(inner, c, s);
        Around(Append(inner, c), s);
      }
    }

    method First() returns (y: Node?)
      requires Linked()
      ensures y == if tree == Leaf then null else InOrder(tree)[0]
    {
      y := node;
      if y != null {
        ghost var inner, s;
        y, inner, s := Minimum(y, Top, tree);
        PlugOrder(inner, s);
      }
    }

    method Last() returns (y: Node?)
      requires Linked()
      ensures InOrder(tree) == [] ==> y == null
      ensures InOrder(tree) != [] ==> y == InOrder(tree)[|InOrder(tree)| - 1]
    {
      y := node;
      if y != null {
        ghost var inner, s;
        y, inner, s := Maximum(y, Top, tree);
        PlugOrder(inner, s);
      }
    }

    /** The in-order successor. */
    method Next(x: Node) returns (y: Node?, ghost i: nat)
      requires Linked() && x in nodes
      ensures i < |InOrder(tree)| && InOrder(tree)[i] == x
      ensures y == if i + 1 < |InOrder(tree)| then InOrder(tree)[i + 1] else null
    {
      OrderNodes(tree, x);
      ghost var c, t := FindNode(tree, x);
      Around(c, t);
      PlugOrder(c, t);
      i := |Before(c)| + |InOrder(t.left)|;
      if x.right != null {
        ghost var right := InR(t.left, x, t.red, c);
        ghost var inner, s;
        y, inner, s := Minimum(x.right, right, t.right);
        PlugOrder(right, t.right);
        PlugOrder(inner, s);
        return;
      }
      var n: Node := x;
      y := n.parent;
      while y != null && n == y.right
        invariant Linked() && tree == Plug(c, t) && t.Bin? && t.node == n && y == Above(c) && (y != null ==> y in nodes)
        invariant |Before(c)| + |InOrder(t)| == i + 1
        decreases c
      {
        Around(c, t);
        Around(c.up, Below(c, t));
        n, c, t := y, c.up, Below(c, t);
        y := y.parent;
      }
      Around(c, t);
      PlugOrder(c, t);
    }

    /** The in-order predecessor. */
    method Prev(x: Node) returns (y: Node?, ghost i: nat)
      requires Linked() && x in nodes
      ensures i < |InOrder(tree)| && InOrder(tree)[i] == x
      ensures y == if 0 < i then InOrder(tree)[i - 1] else null
    {
      OrderNodes(tree, x);
      ghost var c, t := FindNode(tree, x);
      Around(c, t);
      PlugOrder(c, t);
      i := |Before(c)| + |InOrder(t.left)|;
      if x.left != null {
        ghost var left := InL(c, x, t.red, t.right);
        ghost var inner, s;
        y, inner, s := Maximum(x.left, left, t.left);
        PlugOrder(left, t.left);
        PlugOrder(inner, s);
        return;
      }
      var n: Node := x;
      y := n.parent;
      while y != null && n == y.left
        invariant Linked() && tree == Plug(c, t) && t.Bin? && t.node == n && y == Above(c) && (y != null ==> y in nodes)
        invariant |Before(c)| == i
        decreases c
      {
        Around(c, t);
        Around(c.up, Below(c, t));
        n, c, t := y, c.up, Below(c, t);
        y := y.parent;
      }
      Around(c, t);
      PlugOrder(c, t);
    }

    // ----- deletion -----

    /** `y`, already cut out, takes over the links and colour of `x`, node by node.
        When `y` was the right child of `x` its own right child stays. */
    method TakeOver(x: Node, y: Node, near: bool, ghost s: set<Node>)
      requires x in s && y in s && x != y && x.left != null && x.left in s && x.left !in {x, y}
      requires !near ==> x.right != null && x.right in s && x.right !in {x, y, x.left}
      requires x.parent != null ==> x.parent in s && x.parent !in {x, y, x.left, x.right}
      requires x.parent != null ==> (x.parent.left == x <==> x.parent.right != x)
      modifies this`node, s`left, s`right, s`parent, s`red
      ensures node == if old(x.parent) == null then y else old(node)
      ensures y.Now() == Cell(old(x.left), if near then old(y.right) else old(x.right), old(x.parent), old(x.red))
      ensures forall n :: n in s && n != y ==>
                n.Now() ==
                  RenameCell(old(x.parent), x, y, old(x.left), if near then null else old(x.right), n, old(n.Now()))
    {
      if !near {
        y.right := x.right;
        y.right.parent := y;
      }
      if x.parent == null {
        node := y;
      } else if x == x.parent.left {
        x.parent.left := y;
      } else {
        x.parent.right := y;
      }
      y.parent := x.parent;
      y.left := x.left;
      y.left.parent := y;
      y.red := x.red;
    }

    /** Put the detached `y` in the place of `x`. */
    method Supplant(x: Node, y: Node, ghost c: Path, ghost t: Shape)
      requires Linked() && tree == Plug(c, t) && t.Bin? && t.node == x && t.left.Bin? && t.right.Bin? && y !in nodes
      modifies this, nodes`left, nodes`right, nodes`parent, nodes`red
      modifies y`left, y`right, y`parent, y`red
      ensures Linked() && tree == Plug(c, t.(node := y)) && nodes == old(nodes) - {x} + {y}
    {
      Around(c, t);
      RenameEverywhere(c, t, y);
      TakeOver(x, y, false, nodes + {y});
      tree := Plug(c, t.(node := y));
      nodes := Nodes(tree);
    }

    /** Put the right child `y` of `x`, which has no left child, in the place of `x`. */
    method SupplantNear(x: Node, y: Node, ghost c: Path, ghost t: Shape)
      requires Linked() && tree == Plug(c, t) && t.Bin? && t.node == x && t.left.Bin?
      requires t.right.Bin? && t.right.node == y && t.right.left == Leaf
      modifies this, nodes`left, nodes`right, nodes`parent, nodes`red
      ensures Linked() && tree == Plug(c, Bin(t.left, y, t.red, t.right.right)) && nodes == old(nodes) - {x}
    {
      Around(c, t);
      Around(InR(t.left, x, t.red, c), t.right);
      NearEverywhere(c, t);
      TakeOver(x, y, true, nodes);
      tree := Plug(c, Bin(t.left, y, t.red, t.right.right));
      nodes := Nodes(tree);
    }

    /** Rebalance after the node of shape `s` was cut out at `c`, leaving `u`. */
    method Rebalance(x: Node?, parent: Node?, black: bool, ghost c: Path, ghost s: Shape, ghost h: int)
      requires s.Bin? && ((s.left == Leaf && Ok(s, h)) || (s.right == Leaf && Ok(s, h))) && CtxOk(c, h, IsRed(s))
      requires black == !s.red
      requires Linked() && tree == Plug(c, Only(s)) && x == RootOf(Only(s)) && parent == Above(c)
      modifies this, nodes`left, nodes`right, nodes`parent, nodes`red
      ensures Valid()
      ensures nodes == old(nodes) && InOrder(tree) == old(InOrder(tree))
    {
      ghost var u := Only(s);
      if black {
        assert Ok(u, h - 1);
        EraseFixup(x, parent, c, u, h - 1);
      } else {
        CtxWeaken(c, h);
        PlugOk(c, u, h);
      }
    }

    /** Move `y`, the leftmost node right of `x`, into the place of `x`. */
    method MoveUp(x: Node, y: Node, ghost c: Path, ghost t: Shape, ghost inner: Path, ghost s: Shape)
      returns (parent: Node?)
      requires Linked() && tree == Plug(c, t) && t.Bin? && t.node == x && t.left.Bin? && t.right.Bin?
      requires Plug(inner, s) == t.right && s.Bin? && s.node == y && s.left == Leaf
      modifies this, nodes`left, nodes`right, nodes`parent, nodes`red
      ensures Linked() && tree == Plug(c, Bin(t.left, y, t.red, Plug(inner, s.right)))
      ensures nodes == old(nodes) - {x}
      ensures parent == Above(Append(inner, InR(t.left, y, t.red, c)))
    {
      ghost var cx := InR(t.left, x, t.red, c);
      ghost var cy := Append(inner, cx);
      PlugAppend(inner, cx, s);
      PlugNodes(c, t);
      PlugNodes(inner, s);
      Around(cy, s);
      if y.parent == x {
        parent := y;
        SupplantNear(x, y, c, t);
      } else {
        parent := y.parent;
        MoveFar(x, y, c, t, inner, s);
      }
    }

    method MoveFar(x: Node, y: Node, ghost c: Path, ghost t: Shape, ghost inner: Path, ghost s: Shape)
      requires Linked() && tree == Plug(c, t) && t.Bin? && t.node == x && t.left.Bin? && t.right.Bin?
      requires Plug(inner, s) == t.right && s.Bin? && s.node == y && s.left == Leaf && !inner.Top? && x != y
      modifies this, nodes`left, nodes`right, nodes`parent, nodes`red
      ensures Linked() && tree == Plug(c, Bin(t.left, y, t.red, Plug(inner, s.right)))
      ensures nodes == old(nodes) - {x}
    {
      hide At, PathAt, InOrder, Distinct;
      ghost var cx := InR(t.left, x, t.red, c);
      PlugAppend(inner, cx, s);
      PlugAppend(inner, cx, s.right);
      Around(Append(inner, cx), s);
      PlugRoot(inner, s.right);
      PathRootIn(inner, RootOf(s.right));
      PlugNodes(c, t);
      ghost var was := nodes;
      assert {x, y} <= was;
      ghost var rest := Plug(inner, s.right);
      assert rest.Bin?;
      Splice(y, y.right, Append(inner, cx), s, s.right);
      assert tree == Plug(c, Bin(t.left, x, t.red, rest)) && nodes == was - {y};
      Supplant(x, y, c, Bin(t.left, x, t.red, rest));
    }

    /** Remove a node with two children by moving up its in-order successor. */
    method EraseTwo(x: Node, ghost c: Path, ghost t: Shape)
      requires Valid() && tree == Plug(c, t) && t.Bin? && t.node == x && t.left.Bin? && t.right.Bin?
      modifies this, nodes`left, nodes`right, nodes`parent, nodes`red
      ensures Valid() && nodes == old(nodes) - {x}
      ensures InOrder(tree) == (Before(c) + InOrder(t.left)) + (InOrder(t.right) + After(c))
    {
      ghost var cx := InR(t.left, x, t.red, c);
      Around(c, t);
      ghost var inner, s;
      var y;
      y, inner, s := Minimum(x.right, cx, t.right);
      PlugAppend(inner, cx, s);
      Around(Append(inner, cx), s);
      ghost var h := UnplugOk(Append(inner, cx), s);
      var black, replacement := !y.red, y.right;
      var parent := MoveUp(x, y, c, t, inner, s);
      MovedUp(c, t, inner, s);
      PlugAppend(inner, InR(t.left, y, t.red, c), s.right);
      CtxRename(inner, t.left, x, y, t.red, c, h, IsRed(s));
      Rebalance(replacement, parent, black, Append(inner, InR(t.left, y, t.red, c)), s, h);
    }

    /** `rb_erase`: remove `x`, wherever it is. */
    method Erase(x: Node) returns (ghost a: seq<Node>, ghost b: seq<Node>)
      requires Valid() && x in nodes
      modifies this, nodes`left, nodes`right, nodes`parent, nodes`red
      ensures Valid() && nodes == old(nodes) - {x}
      ensures old(InOrder(tree)) == a + [x] + b && InOrder(tree) == a + b
      ensures x.Now() == Cell(null, null, null, true)
    {
      OrderNodes(tree, x);
      ghost var c, t := FindNode(tree, x);
      Around(c, t);
      OrderAround(c, t);
      a, b := Before(c) + InOrder(t.left), InOrder(t.right) + After(c);
      if x.left == null {
        EraseOne(x, x.right, c, t);
      } else if x.right == null {
        EraseOne(x, x.left, c, t);
      } else {
        EraseTwo(x, c, t);
      }
      Reset(x);
    }

    /** `rb_node_init` on a node that is no longer linked. */
    method Reset(x: Node)
      requires Valid() && x !in nodes
      modifies x`left, x`right, x`parent, x`red
      ensures Valid() && x.Now() == Cell(null, null, null, true)
    {
      x.parent, x.left, x.right, x.red := null, null, null, true;
    }

    /** Remove a node with at most one child. */
    method EraseOne(x: Node, child: Node?, ghost c: Path, ghost t: Shape)
      requires Valid() && tree == Plug(c, t) && t.Bin? && t.node == x && (t.left == Leaf || t.right == Leaf)
      requires child == RootOf(Only(t))
      modifies this, nodes`left, nodes`right, nodes`parent, nodes`red
      ensures Valid() && nodes == old(nodes) - {x}
      ensures InOrder(tree) == (Before(c) + InOrder(t.left)) + (InOrder(t.right) + After(c))
    {
      ghost var h := UnplugOk(c, t);
      ghost var u := Only(t);
      Around(c, t);
      OrderSplice(c, t);
      var black, parent := !x.red, x.parent;
      Splice(x, child, c, t, u);
      Rebalance(child, parent, black, c, t, h);
    }
  }
}
