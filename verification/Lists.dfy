/** Linked lists of distinct items, as sequences. */
module Lists {
  type Id = nat

  ghost predicate NoDup(list: seq<Id>) {
    forall i, j :: 0 <= i < j < |list| ==> list[i] != list[j]
  }

  function Without(list: seq<Id>, id: Id): seq<Id> {
    if list == [] then [] else if list[0] == id then list[1..] else [list[0]] + Without(list[1..], id)
  }

  lemma {:induction false} WithoutFacts(list: seq<Id>, id: Id)
    requires NoDup(list)
    ensures NoDup(Without(list, id)) && forall x :: x in Without(list, id) <==> x in list && x != id
  {
    if list != [] {
      var rest := list[1..];
      assert list == [list[0]] + rest && list[0] !in rest;
      WithoutFacts(rest, id);
      if list[0] != id { LinkFacts(Without(rest, id), list[0]); }
    }
  }

  lemma LinkFacts(list: seq<Id>, id: Id)
    requires NoDup(list) && id !in list
    ensures NoDup([id] + list) && forall x :: x in [id] + list <==> x in list || x == id
  {
  }

  lemma AppendFacts(list: seq<Id>, id: Id)
    requires NoDup(list) && id !in list
    ensures NoDup(list + [id]) && forall x :: x in list + [id] <==> x in list || x == id
  {
  }
}
