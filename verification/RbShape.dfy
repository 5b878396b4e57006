/** Pure red-black trees and their one-hole contexts.

    The heap code of `RbTree` walks up and down a tree while it is not yet
    balanced.  A tree with a focus is a pair (context, subtree); a context
    lists the ancestors of the hole from the inside out. */
module RbShape {

  datatype Tree<N> = Leaf | Bin(left: Tree<N>, node: N, red: bool, right: Tree<N>)

  datatype Ctx<N> =
    | Top
    | InL(up: Ctx<N>, node: N, red: bool, other: Tree<N>)
    | InR(other: Tree<N>, node: N, red: bool, up: Ctx<N>)

  function InOrder<N>(t: Tree<N>): seq<N> {
    match t
    case Leaf => []
    case Bin(l, n, _, r) => InOrder(l) + [n] + InOrder(r)
  }

  function Plug<N>(c: Ctx<N>, t: Tree<N>): Tree<N> {
    match c
    case Top => t
    case InL(up, n, red, r) => Plug(up, Bin(t, n, red, r))
    case InR(l, n, red, up) => Plug(up, Bin(l, n, red, t))
  }

  /** `inner` placed in the hole of `outer`. */
  function Append<N>(inner: Ctx<N>, outer: Ctx<N>): Ctx<N> {
    match inner
    case Top => outer
    case InL(up, n, red, r) => InL(Append(up, outer), n, red, r)
    case InR(l, n, red, up) => InR(l, n, red, Append(up, outer))
  }

  function Before<N>(c: Ctx<N>): seq<N> {
    match c
    case Top => []
    case InL(up, _, _, _) => Before(up)
    case InR(l, n, _, up) => Before(up) + InOrder(l) + [n]
  }

  function After<N>(c: Ctx<N>): seq<N> {
    match c
    case Top => []
    case InL(up, n, _, r) => [n] + InOrder(r) + After(up)
    case InR(_, _, _, up) => After(up)
  }

  lemma {:induction false} PlugOrder<N>(c: Ctx<N>, t: Tree<N>)
    ensures InOrder(Plug(c, t)) == Before(c) + InOrder(t) + After(c)
  {
    match c
    case Top =>
    case InL(up, n, red, r) => PlugOrder(up, Bin(t, n, red, r));
    case InR(l, n, red, up) => PlugOrder(up, Bin(l, n, red, t));
  }

  lemma {:induction false} PlugAppend<N>(inner: Ctx<N>, outer: Ctx<N>, t: Tree<N>)
    ensures Plug(Append(inner, outer), t) == Plug(outer, Plug(inner, t))
  {
    match inner
    case Top =>
    case InL(up, n, red, r) => PlugAppend(up, outer, Bin(t, n, red, r));
    case InR(l, n, red, up) => PlugAppend(up, outer, Bin(l, n, red, t));
  }

  // ----- red-black balance -----

  predicate IsRed<N>(t: Tree<N>) { t.Bin? && t.red }

  /** No red node has a red child and every path to a leaf crosses `h` black nodes. */
  predicate Ok<N>(t: Tree<N>, h: int) {
    match t
    case Leaf => h == 0
    case Bin(l, _, red, r) =>
      if red then !IsRed(l) && !IsRed(r) && Ok(l, h) && Ok(r, h)
      else Ok(l, h - 1) && Ok(r, h - 1)
  }

  /** The context completes any subtree of black height `h` whose root is red
      only if `holeRed`; the root of the whole tree is black. */
  predicate CtxOk<N>(c: Ctx<N>, h: int, holeRed: bool) {
    match c
    case Top => !holeRed
    case InL(up, _, red, r) =>
      Ok(r, h) && if red then !holeRed && !IsRed(r) && CtxOk(up, h, true) else CtxOk(up, h + 1, false)
    case InR(l, _, red, up) =>
      Ok(l, h) && if red then !holeRed && !IsRed(l) && CtxOk(up, h, true) else CtxOk(up, h + 1, false)
  }

  ghost predicate IsRb<N>(t: Tree<N>) {
    !IsRed(t) && exists h :: Ok(t, h)
  }

  function Blacken<N>(t: Tree<N>): Tree<N> {
    match t
    case Leaf => Leaf
    case Bin(l, n, _, r) => Bin(l, n, false, r)
  }

  lemma HeightNat<N>(t: Tree<N>, h: int)
    requires Ok(t, h)
    ensures 0 <= h
    ensures h > 0 ==> t.Bin?
  {
  }

  lemma CtxWeaken<N>(c: Ctx<N>, h: int)
    requires CtxOk(c, h, true)
    ensures CtxOk(c, h, false)
  {
  }

  lemma {:induction false} PlugOk<N>(c: Ctx<N>, t: Tree<N>, h: int)
    requires Ok(t, h) && CtxOk(c, h, IsRed(t))
    ensures IsRb(Plug(c, t))
  {
    match c
    case Top =>
    case InL(up, n, red, r) => PlugOk(up, Bin(t, n, red, r), if red then h else h + 1);
    case InR(l, n, red, up) => PlugOk(up, Bin(l, n, red, t), if red then h else h + 1);
  }

  lemma {:induction false} UnplugOk<N>(c: Ctx<N>, t: Tree<N>) returns (h: int)
    requires IsRb(Plug(c, t))
    ensures Ok(t, h) && CtxOk(c, h, IsRed(t))
  {
    match c
    case Top => h :| Ok(t, h);
    case InL(up, n, red, r) =>
      var k := UnplugOk(up, Bin(t, n, red, r));
      h := if red then k else k - 1;
    case InR(l, n, red, up) =>
      var k := UnplugOk(up, Bin(l, n, red, t));
      h := if red then k else k - 1;
  }

  /** Renaming one ancestor does not change what the context accepts. */
  lemma {:induction false} CtxRename<N>(inner: Ctx<N>, l: Tree<N>, x: N, y: N, red: bool, up: Ctx<N>, h: int,
                                        holeRed: bool)
    requires CtxOk(Append(inner, InR(l, x, red, up)), h, holeRed)
    ensures CtxOk(Append(inner, InR(l, y, red, up)), h, holeRed)
  {
    match inner
    case Top =>
    case InL(in1, n, c, r) =>
      CtxRename(in1, l, x, y, red, up, if c then h else h + 1, c);
    case InR(l1, n, c, in1) =>
      CtxRename(in1, l, x, y, red, up, if c then h else h + 1, c);
  }

  /** Path to the first occurrence of a node. */
  lemma {:induction false} FindNode<N>(t: Tree<N>, x: N) returns (c: Ctx<N>, s: Tree<N>)
    requires x in InOrder(t)
    ensures Plug(c, s) == t && s.Bin? && s.node == x
  {
    if t.node == x {
      c, s := Top, t;
    } else if x in InOrder(t.left) {
      c, s := FindNode(t.left, x);
      PlugAppend(c, InL(Top, t.node, t.red, t.right), s);
      c := Append(c, InL(Top, t.node, t.red, t.right));
    } else {
      c, s := FindNode(t.right, x);
      PlugAppend(c, InR(t.left, t.node, t.red, Top), s);
      c := Append(c, InR(t.left, t.node, t.red, Top));
    }
  }
}
