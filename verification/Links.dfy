/** Doubly linked lists through one pair of link fields per item: an item can be on one list. */
module Links {
  import opened Lists

  datatype Ref = Null | To(id: Id)

  /** The two link fields of an item. */
  datatype Link = Link(prev: Ref, next: Ref)

  const LOOSE := Link(Null, Null)

  /** A reference to the item at `i`, or none past either end. */
  function RefAt(list: seq<Id>, i: int): Ref {
    if 0 <= i < |list| then To(list[i]) else Null
  }

  /** The link fields of its items spell the list. */
  ghost predicate Chained(list: seq<Id>, links: map<Id, Link>) {
    forall i :: 0 <= i < |list| ==> ChainedAt(list, links, i)
  }

  ghost predicate ChainedAt(list: seq<Id>, links: map<Id, Link>, i: nat)
    requires i < |list|
  {
    list[i] in links && links[list[i]] == Link(RefAt(list, i - 1), RefAt(list, i + 1))
  }

  function SetNext(links: map<Id, Link>, at: Ref, to: Ref): map<Id, Link> {
    if at.To? && at.id in links then links[at.id := links[at.id].(next := to)] else links
  }

  function SetPrev(links: map<Id, Link>, at: Ref, to: Ref): map<Id, Link> {
    if at.To? && at.id in links then links[at.id := links[at.id].(prev := to)] else links
  }

  /** Links after `id` was put behind the item `last`. */
  function Behind(links: map<Id, Link>, id: Id, last: Ref): map<Id, Link> {
    SetNext(links[id := Link(last, Null)], last, To(id))
  }

  /** Links after `id` was put in front of the item `first`. */
  function InFront(links: map<Id, Link>, id: Id, first: Ref): map<Id, Link> {
    SetPrev(links[id := Link(Null, first)], first, To(id))
  }

  /** Links after `id` was taken out from between its neighbours. */
  function Bridged(links: map<Id, Link>, id: Id): map<Id, Link>
    requires id in links
  {
    var l := links[id];
    SetPrev(SetNext(links, l.prev, l.next), l.next, l.prev)[id := LOOSE]
  }

  lemma Appended(list: seq<Id>, links: map<Id, Link>, id: Id)
    requires NoDup(list) && id !in list && Chained(list, links)
    ensures Chained(list + [id], Behind(links, id, RefAt(list, |list| - 1)))
  {
    var n, more, now := |list|, list + [id], Behind(links, id, RefAt(list, |list| - 1));
    forall i | 0 <= i < |more|
      ensures ChainedAt(more, now, i)
    {
      if i < n { assert ChainedAt(list, links, i) && list[i] != id; }
      assert RefAt(more, i - 1) == RefAt(list, i - 1);
    }
  }

  lemma Pushed(list: seq<Id>, links: map<Id, Link>, id: Id)
    requires NoDup(list) && id !in list && Chained(list, links)
    ensures Chained([id] + list, InFront(links, id, RefAt(list, 0)))
  {
    var more, now := [id] + list, InFront(links, id, RefAt(list, 0));
    forall i | 0 <= i < |more|
      ensures ChainedAt(more, now, i)
    {
      if i > 0 {
        assert ChainedAt(list, links, i - 1) && more[i] == list[i - 1];
        assert RefAt(more, i + 1) == RefAt(list, i);
      }
    }
  }

  lemma {:induction false} WithoutAt(list: seq<Id>, i: nat)
    requires NoDup(list) && i < |list|
    ensures Without(list, list[i]) == list[..i] + list[i + 1..]
  {
    if i > 0 {
      assert list[1..][i - 1] == list[i];
      WithoutAt(list[1..], i - 1);
      assert list[1..][..i - 1] == list[1..i] && list[1..][i..] == list[i + 1..];
      assert [list[0]] + list[1..i] == list[..i];
    }
  }

  /** What taking item `k` out does to the links of item `j`. */
  lemma BridgedAt(list: seq<Id>, links: map<Id, Link>, k: nat, j: nat)
    requires NoDup(list) && Chained(list, links) && k < |list| && j < |list| && j != k
    ensures list[k] in links && list[j] in Bridged(links, list[k])
    ensures Bridged(links, list[k])[list[j]] ==
            Link(RefAt(list, if j == k + 1 then k - 1 else j - 1), RefAt(list, if j + 1 == k then k + 1 else j + 1))
  {
    assert ChainedAt(list, links, k) && ChainedAt(list, links, j);
    if k > 0 { assert ChainedAt(list, links, k - 1); }
    if k + 1 < |list| { assert ChainedAt(list, links, k + 1); }
  }

  /** The neighbours in the list without item `k`. */
  lemma CutRefs(list: seq<Id>, k: nat, i: nat)
    requires k < |list| && i + 1 < |list|
    ensures
      var less, j := list[..k] + list[k + 1..], if i < k then i else i + 1;
      && less[i] == list[j] && RefAt(less, i - 1) == RefAt(list, if j == k + 1 then k - 1 else j - 1)
      && RefAt(less, i + 1) == RefAt(list, if j + 1 == k then k + 1 else j + 1)
  {
  }

  /** Taking an item out joins its neighbours; the ends move if it was at an end. */
  lemma Unlinked(list: seq<Id>, links: map<Id, Link>, id: Id)
    requires NoDup(list) && id in list && Chained(list, links)
    ensures id in links && Chained(Without(list, id), Bridged(links, id))
    ensures RefAt(Without(list, id), 0) == if links[id].prev == Null then links[id].next else RefAt(list, 0)
    ensures
      var less := Without(list, id);
      RefAt(less, |less| - 1) == if links[id].next == Null then links[id].prev else RefAt(list, |list| - 1)
  {
    hide Bridged, Chained, Without, NoDup, RefAt;
    var k := Place(list, links, id);
    WithoutAt(list, k);
    CutChain(list, links, k);
    CutEnds(list, k);
  }

  lemma Place(list: seq<Id>, links: map<Id, Link>, id: Id) returns (k: nat)
    requires id in list && Chained(list, links)
    ensures k < |list| && list[k] == id && id in links && links[id] == Link(RefAt(list, k - 1), RefAt(list, k + 1))
    ensures (links[id].prev == Null <==> k == 0) && (links[id].next == Null <==> k == |list| - 1)
  {
    k :| 0 <= k < |list| && list[k] == id;
    assert ChainedAt(list, links, k);
  }

  lemma CutChain(list: seq<Id>, links: map<Id, Link>, k: nat)
    requires NoDup(list) && Chained(list, links) && k < |list| && list[k] in links
    ensures Chained(list[..k] + list[k + 1..], Bridged(links, list[k]))
  {
    hide Bridged, RefAt;
    var less := list[..k] + list[k + 1..];
    forall i | 0 <= i < |less|
      ensures ChainedAt(less, Bridged(links, list[k]), i)
    {
      CutRefs(list, k, i);
      BridgedAt(list, links, k, if i < k then i else i + 1);
    }
  }

  lemma CutEnds(list: seq<Id>, k: nat)
    requires k < |list|
    ensures
      var less := list[..k] + list[k + 1..];
      && RefAt(less, 0) == (if k == 0 then RefAt(list, 1) else RefAt(list, 0))
      && RefAt(less, |less| - 1) == if k == |list| - 1 then RefAt(list, k - 1) else RefAt(list, |list| - 1)
  {
  }

  /** A list none of whose items was touched is still spelled. */
  lemma Untouched(list: seq<Id>, links: map<Id, Link>, now: map<Id, Link>)
    requires Chained(list, links) && forall x :: x in list ==> x in now && x in links && now[x] == links[x]
    ensures Chained(list, now)
  {
    forall i | 0 <= i < |list|
      ensures ChainedAt(list, now, i)
    {
      assert ChainedAt(list, links, i);
    }
  }

  /** Only the item and its neighbours are touched. */
  lemma BridgedElsewhere(list: seq<Id>, links: map<Id, Link>, id: Id, x: Id)
    requires Chained(list, links) && id in list && x !in list
    ensures id in links && Bridged(links, id).Keys == links.Keys
    ensures x in links ==> Bridged(links, id)[x] == links[x]
  {
    var k :| 0 <= k < |list| && list[k] == id;
    assert ChainedAt(list, links, k);
    if k > 0 { assert ChainedAt(list, links, k - 1); }
    if k + 1 < |list| { assert ChainedAt(list, links, k + 1); }
  }

  lemma Member(list: seq<Id>, links: map<Id, Link>, x: Id)
    requires Chained(list, links) && x in list
    ensures x in links
  {
    var _ := Place(list, links, x);
  }

  lemma Neighbours(list: seq<Id>, links: map<Id, Link>, id: Id)
    requires Chained(list, links) && id in list
    ensures id in links
    ensures links[id].prev.To? ==> links[id].prev.id in list && links[id].prev.id in links
    ensures links[id].next.To? ==> links[id].next.id in list && links[id].next.id in links
  {
    var _ := Place(list, links, id);
    if links[id].prev.To? { Member(list, links, links[id].prev.id); }
    if links[id].next.To? { Member(list, links, links[id].next.id); }
  }

  lemma BehindElsewhere(list: seq<Id>, links: map<Id, Link>, id: Id, other: seq<Id>)
    requires Chained(list, links) && Chained(other, links) && id !in other && forall x :: x in other ==> x !in list
    ensures Chained(other, Behind(links, id, RefAt(list, |list| - 1)))
  {
    forall x | x in other
      ensures x in links && Behind(links, id, RefAt(list, |list| - 1))[x] == links[x]
    {
      Member(other, links, x);
      assert list != [] ==> list[|list| - 1] in list;
    }
    Untouched(other, links, Behind(links, id, RefAt(list, |list| - 1)));
  }

  lemma InFrontElsewhere(list: seq<Id>, links: map<Id, Link>, id: Id, other: seq<Id>)
    requires Chained(list, links) && Chained(other, links) && id !in other && forall x :: x in other ==> x !in list
    ensures Chained(other, InFront(links, id, RefAt(list, 0)))
  {
    forall x | x in other
      ensures x in links && InFront(links, id, RefAt(list, 0))[x] == links[x]
    {
      Member(other, links, x);
      assert list != [] ==> list[0] in list;
    }
    Untouched(other, links, InFront(links, id, RefAt(list, 0)));
  }

  lemma OtherChain(list: seq<Id>, links: map<Id, Link>, id: Id, other: seq<Id>)
    requires Chained(list, links) && Chained(other, links) && id in list && forall x :: x in other ==> x !in list
    ensures id in links && Chained(other, Bridged(links, id))
  {
    hide Bridged;
    Member(list, links, id);
    forall x | x in other
      ensures x in links && x in Bridged(links, id) && Bridged(links, id)[x] == links[x]
    {
      Member(other, links, x);
      BridgedElsewhere(list, links, id, x);
    }
    Untouched(other, links, Bridged(links, id));
  }

  // ----- Several lists through the same fields -------------------------------------------

  /** Heads and link fields spell every list. */
  ghost predicate Strung(lists: seq<seq<Id>>, links: map<Id, Link>, heads: seq<Ref>) {
    |heads| == |lists| && forall b :: 0 <= b < |lists| ==> Chained(lists[b], links) && heads[b] == RefAt(lists[b], 0)
  }

  /** No two lists share an item. */
  ghost predicate Separate(lists: seq<seq<Id>>) {
    forall b, c, x :: 0 <= b < |lists| && 0 <= c < |lists| && b != c && x in lists[b] ==> x !in lists[c]
  }

  lemma StrungPush(lists: seq<seq<Id>>, links: map<Id, Link>, heads: seq<Ref>, id: Id, b: nat)
    requires Strung(lists, links, heads) && Separate(lists) && b < |lists| && NoDup(lists[b])
    requires forall c :: 0 <= c < |lists| ==> id !in lists[c]
    ensures Strung(lists[b := [id] + lists[b]], InFront(links, id, heads[b]), heads[b := To(id)])
  {
    hide Chained, InFront;
    var now := lists[b := [id] + lists[b]];
    Pushed(lists[b], links, id);
    forall c | 0 <= c < |now| && c != b
      ensures Chained(now[c], InFront(links, id, heads[b]))
    {
      InFrontElsewhere(lists[b], links, id, lists[c]);
    }
  }

  lemma StrungCut(lists: seq<seq<Id>>, links: map<Id, Link>, heads: seq<Ref>, id: Id, b: nat)
    requires Strung(lists, links, heads) && Separate(lists) && b < |lists| && NoDup(lists[b]) && id in lists[b]
    ensures
      id in links &&
      Strung(lists[b := Without(lists[b], id)], Bridged(links, id),
             if links[id].prev.To? then heads else heads[b := links[id].next])
  {
    hide Chained, Bridged, Without;
    var now := lists[b := Without(lists[b], id)];
    Unlinked(lists[b], links, id);
    forall c | 0 <= c < |now| && c != b
      ensures Chained(now[c], Bridged(links, id))
    {
      OtherChain(lists[b], links, id, lists[c]);
    }
  }

  lemma StrungMember(lists: seq<seq<Id>>, links: map<Id, Link>, heads: seq<Ref>, b: nat)
    requires Strung(lists, links, heads) && b < |lists|
    ensures |heads| == |lists| && Chained(lists[b], links) && heads[b] == RefAt(lists[b], 0)
    ensures heads[b].To? ==> heads[b].id in lists[b] && heads[b].id in links
  {
    if heads[b].To? { Member(lists[b], links, heads[b].id); }
  }

  /** Fields of items on no list do not matter. */
  lemma StrungSame(lists: seq<seq<Id>>, links: map<Id, Link>, now: map<Id, Link>, heads: seq<Ref>)
    requires Strung(lists, links, heads)
    requires forall b, x :: 0 <= b < |lists| && x in lists[b] && x in links ==> x in now && now[x] == links[x]
    ensures Strung(lists, now, heads)
  {
    forall b | 0 <= b < |lists|
      ensures Chained(lists[b], now)
    {
      forall x | x in lists[b]
        ensures x in links
      {
        Member(lists[b], links, x);
      }
      Untouched(lists[b], links, now);
    }
  }
}
