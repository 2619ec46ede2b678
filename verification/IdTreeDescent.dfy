/**
  The enumeration behind IdTreePostingIterator (src/engine/idtreedb.cpp): a stack
  of ids is drained, each popped id goes to the results and its children on the stack.
 */
module IdTreeDescent {
  import opened Sequences
  import opened IdUtils
  import opened IdTree

  /** Everything at or below the ids of a list. */
  ghost function Families(files: Files, list: seq<Id>): set<Id> {
    if list == [] then {} else Families(files, list[..|list| - 1]) + Family(files, list[|list| - 1])
  }

  /** No two ids of the list share a descendant, and none is 0. */
  ghost predicate Apart(files: Files, list: seq<Id>) {
    list == [] ||
    (var n := |list| - 1;
     list[n] != 0 && Apart(files, list[..n]) && Families(files, list[..n]) !! Family(files, list[n]))
  }

  lemma {:induction false} FamiliesOfConcat(files: Files, a: seq<Id>, b: seq<Id>)
    ensures Families(files, a + b) == Families(files, a) + Families(files, b)
  {
    if b == [] {
      assert a + b == a;
    } else {
      var n := |b| - 1;
      assert (a + b)[..|a| + n] == a + b[..n];
      FamiliesOfConcat(files, a, b[..n]);
    }
  }

  lemma {:induction false} ApartConcat(files: Files, a: seq<Id>, b: seq<Id>)
    requires Apart(files, a) && Apart(files, b) && Families(files, a) !! Families(files, b)
    ensures Apart(files, a + b)
  {
    if b == [] {
      assert a + b == a;
    } else {
      var n := |b| - 1;
      assert (a + b)[..|a| + n] == a + b[..n];
      ApartConcat(files, a, b[..n]);
      FamiliesOfConcat(files, a, b[..n]);
    }
  }

  /** The list has distinct children of p. */
  ghost predicate Siblings(files: Files, p: Id, list: seq<Id>) {
    Ascending(list, IdOf) && forall c :: c in list ==> c in files && files[c].parentId == p
  }

  lemma {:induction false} InFamilies(files: Files, list: seq<Id>, n: Id)
    ensures n in Families(files, list) <==> exists c :: c in list && n in Family(files, c)
  {
    if list != [] {
      var k := |list| - 1;
      assert list == list[..k] + [list[k]];
      InFamilies(files, list[..k], n);
    }
  }

  lemma FamiliesDisjoint(files: Files, c: Id, d: Id, n: Id)
    requires Acyclic(files) && c in files && d in files && c != d && files[c].parentId == files[d].parentId
    requires n in Family(files, c)
    ensures n !in Family(files, d)
  {
    BelowItself(files, c);
    BelowItself(files, d);
    SiblingsApart(files, n, c, d);
  }

  lemma {:induction false} SiblingsAreApart(files: Files, p: Id, list: seq<Id>)
    requires Acyclic(files) && Siblings(files, p, list)
    ensures Apart(files, list)
  {
    if list != [] {
      var k := |list| - 1;
      SiblingsAreApart(files, p, list[..k]);
      forall n | n in Families(files, list[..k])
        ensures n !in Family(files, list[k])
      {
        InFamilies(files, list[..k], n);
        var c :| c in list[..k] && n in Family(files, c);
        FamiliesDisjoint(files, c, list[k], n);
      }
      assert list[k] in list;
    }
  }

  /** The children of p, as stored, have exactly p's descendants below them. */
  lemma ChildFamilies(children: Children, files: Files, p: Id)
    requires Forest(children, files) && p != 0
    ensures Families(files, GetChildren(children, p)) == Family(files, p) - {p}
    ensures Apart(files, GetChildren(children, p))
  {
    var kids := GetChildren(children, p);
    assert Siblings(files, p, kids);
    SiblingsAreApart(files, p, kids);
    forall n ensures n in Families(files, kids) <==> n in Family(files, p) && n != p {
      InFamilies(files, kids, n);
      FamilyUnfolds(files, p, n);
      forall c | c in kids ensures p !in Family(files, c) {
        BelowItself(files, c);
        ParentNotBelow(files, c);
      }
    }
  }

  /** The results so far and the stack together are the family of p, without overlap. */
  ghost predicate Draining(files: Files, p: Id, idList: seq<Id>, resultList: seq<Id>) {
    Apart(files, idList) && NoRepeats(resultList) &&
    Elements(resultList) !! Families(files, idList) &&
    Elements(resultList) + Families(files, idList) == Family(files, p)
  }

  lemma DrainStep(children: Children, files: Files, p: Id, idList: seq<Id>, resultList: seq<Id>)
    requires Forest(children, files) && Draining(files, p, idList, resultList) && idList != []
    ensures var n := |idList| - 1;
      Draining(files, p, idList[..n] + GetChildren(children, idList[n]), resultList + [idList[n]]) &&
      idList[n] in Family(files, p) && idList[n] !in Elements(resultList)
  {
    var n := |idList| - 1;
    var id, rest := idList[n], idList[..n];
    var kids := GetChildren(children, id);
    ChildFamilies(children, files, id);
    ApartConcat(files, rest, kids);
    FamiliesOfConcat(files, rest, kids);
    assert Elements(resultList + [id]) == Elements(resultList) + {id};
    assert id in Family(files, id);
  }

  /** p and all its descendants, each once; the loop ends because the forest is finite. */
  method Descend(children: Children, ghost files: Files, p: Id) returns (resultList: seq<Id>)
    requires Forest(children, files) && p != 0
    ensures NoRepeats(resultList)
    ensures forall x :: x in resultList <==> x in Family(files, p)
  {
    var idList := [p];
    resultList := [];
    assert Families(files, [p][..0]) == {};
    while idList != []
      invariant Draining(files, p, idList, resultList)
      decreases Family(files, p) - Elements(resultList)
    {
      DrainStep(children, files, p, idList, resultList);
      ghost var before := resultList;
      var id := idList[|idList| - 1];
      idList := idList[..|idList| - 1] + GetChildren(children, id);
      resultList := resultList + [id];
      assert id in Elements(resultList) && Elements(before) <= Elements(resultList);
    }
    assert forall x :: x in resultList <==> x in Elements(resultList);
  }
}
