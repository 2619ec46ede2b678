/**
  What the two recursive removals of WriteTransaction take away
  (src/engine/writetransaction.cpp), as sets of entries of the directory forest.
 */
module Removals {
  import opened IdUtils
  import opened IdTree
  import opened IdTreeDescent
  import opened TreeUpdates
  import opened Urls
  import opened DocumentUrlDBs

  lemma FamilyDownClosed(files: Files, p: Id)
    requires Acyclic(files) && p != 0
    ensures DownClosed(files, Family(files, p)) && 0 !in Family(files, p)
  {
    forall n | n in files && files[n].parentId in Family(files, p) ensures n in Family(files, p) {
      BelowItself(files, p);
      BelowParent(files, n);
      BelowTransitive(files, n, files[n].parentId, p);
    }
  }

  /** Taking away whole subtrees elsewhere leaves the family of c, its paths and its shape alone. */
  lemma RestStays(files: Files, gone: set<Id>, c: Id)
    requires Acyclic(files) && c != 0 && 0 !in gone && DownClosed(files, gone) && Family(files, c) !! gone
    ensures Acyclic(files - gone) && Family(files - gone, c) == Family(files, c)
    ensures forall n, m :: n in Family(files, c) ==> (Below(files - gone, n, m) <==> Below(files, n, m))
    ensures forall n :: n in Family(files, c) ==> PathOf(files - gone, n) == PathOf(files, n)
  {
    RemovalKeepsUp(files, gone);
    forall n | n in Family(files, c) ensures PathOf(files - gone, n) == PathOf(files, n) {
      SamePath(files, gone, n);
    }
  }

  lemma SamePath(files: Files, gone: set<Id>, n: Id)
    requires Acyclic(files) && 0 !in gone && DownClosed(files, gone) && n !in gone && Acyclic(files - gone)
    ensures PathOf(files - gone, n) == PathOf(files, n)
  {
    if n in files {
      forall m | Below(files, n, m) ensures m !in gone {
        var k: nat :| Up(files, n, k) == m;
        UpAfterRemoval(files, gone, n, k);
      }
      SameAbove(files, files - gone, n);
    }
  }

  lemma {:induction false} FamiliesDownClosed(files: Files, list: seq<Id>)
    requires Acyclic(files) && Apart(files, list)
    ensures DownClosed(files, Families(files, list)) && 0 !in Families(files, list)
  {
    if list != [] {
      var k := |list| - 1;
      FamiliesDownClosed(files, list[..k]);
      FamilyDownClosed(files, list[k]);
    }
  }

  lemma {:induction false} ApartPrefix(files: Files, list: seq<Id>, i: nat)
    requires Apart(files, list) && i <= |list|
    ensures Apart(files, list[..i])
    ensures i < |list| ==> list[i] != 0 && Families(files, list[..i]) !! Family(files, list[i])
    decreases |list|
  {
    if i == |list| {
      assert list[..i] == list;
    } else {
      var k := |list| - 1;
      assert list[..k][..i] == list[..i];
      ApartPrefix(files, list[..k], i);
      if i < k {
        assert list[..k][i] == list[i];
      }
    }
  }

  lemma ChildFamily(children: Children, files: Files, p: Id, i: nat)
    requires Forest(children, files) && p != 0 && i < |GetChildren(children, p)|
    ensures var kids := GetChildren(children, p);
      kids[i] != 0 && kids[i] in files && Family(files, kids[i]) < Family(files, p) &&
      Apart(files, kids[..i]) && Families(files, kids[..i]) !! Family(files, kids[i])
  {
    var kids := GetChildren(children, p);
    ChildFamilies(children, files, p);
    ApartPrefix(files, kids, i);
    assert kids[i] in kids;
    forall n | n in Family(files, kids[i]) ensures n in Family(files, p) - {p} {
      InFamilies(files, kids, n);
    }
    assert p in Family(files, p);
  }

  /** The i-th child, when the earlier children are gone with everything below them. */
  lemma NextChild(children: Children, files: Files, p: Id, i: nat, rest: Files)
    requires Forest(children, files) && p != 0 && i < |GetChildren(children, p)|
    requires rest == files - Families(files, GetChildren(children, p)[..i])
    ensures var kids := GetChildren(children, p);
      kids[i] != 0 && Family(rest, kids[i]) == Family(files, kids[i]) && Family(files, kids[i]) < Family(files, p) &&
      Families(files, kids[..i + 1]) == Families(files, kids[..i]) + Family(files, kids[i])
  {
    var kids := GetChildren(children, p);
    ChildFamily(children, files, p, i);
    FamiliesDownClosed(files, kids[..i]);
    RestStays(files, Families(files, kids[..i]), kids[i]);
    assert kids[..i + 1][..i] == kids[..i];
  }

  /** When all children are gone p is a leaf, and removing it completes the family. */
  lemma AllChildrenGone(children: Children, files: Files, p: Id, children': Children, rest: Files)
    requires Forest(children, files) && p != 0 && Forest(children', rest)
    requires rest == files - Families(files, GetChildren(children, p))
    ensures GetChildren(children', p) == [] && rest - {p} == files - Family(files, p)
    ensures Families(files, GetChildren(children, p)) + {p} == Family(files, p)
  {
    ChildFamilies(children, files, p);
    if GetChildren(children', p) != [] {
      var c := GetChildren(children', p)[0];
      assert c in GetChildren(children', p);
      assert c in rest && rest[c].parentId == p;
      BelowParent(files, c);
      BelowItself(files, c);
      ParentNotBelow(files, c);
    }
    assert p in Family(files, p);
  }

  /** n and m lie on one branch. */
  ghost predicate OneBranch(files: Files, n: Id, m: Id) {
    Below(files, n, m) || Below(files, m, n)
  }

  /**
    What the conditional removal takes away: the nodes whose whole branch, from p down and
    to every leaf below, is to go.
   */
  ghost function Removed(files: Files, shouldDelete: string -> bool, p: Id): set<Id>
    requires Acyclic(files)
  {
    set n | n in Family(files, p) && BranchGoes(files, shouldDelete, p, n)
  }

  ghost predicate BranchGoes(files: Files, shouldDelete: string -> bool, p: Id, n: Id)
    requires Acyclic(files)
  {
    forall m :: m in Family(files, p) && OneBranch(files, n, m) ==> shouldDelete(PathOf(files, m))
  }

  /** Nothing goes below a node that is to stay. */
  lemma KeptRoot(files: Files, shouldDelete: string -> bool, p: Id)
    requires Acyclic(files) && !shouldDelete(PathOf(files, p))
    ensures Removed(files, shouldDelete, p) == {}
  {
    forall n | n in Family(files, p) ensures !BranchGoes(files, shouldDelete, p, n) {
      BelowItself(files, p);
      assert OneBranch(files, n, p);
    }
  }

  /** The root itself goes exactly when everything below it does. */
  lemma RootGoes(files: Files, shouldDelete: string -> bool, p: Id)
    requires Acyclic(files)
    ensures p in Removed(files, shouldDelete, p) <==>
      forall m :: m in Family(files, p) ==> shouldDelete(PathOf(files, m))
  {
    BelowItself(files, p);
    assert forall m :: m in Family(files, p) ==> OneBranch(files, p, m);
  }

  /** Within one child's family, the branches that go are those that go from the child down. */
  lemma BranchThroughChild(files: Files, shouldDelete: string -> bool, p: Id, c: Id, n: Id)
    requires Acyclic(files) && p != 0 && shouldDelete(PathOf(files, p))
    requires c in files && files[c].parentId == p && n in Family(files, c)
    ensures n in Family(files, p) && n != p
    ensures BranchGoes(files, shouldDelete, p, n) <==> BranchGoes(files, shouldDelete, c, n)
  {
    FamilyUnfolds(files, p, n);
    BelowItself(files, c);
    ParentNotBelow(files, c);
    forall m | m in Family(files, c) ensures m in Family(files, p) {
      FamilyUnfolds(files, p, m);
    }
    forall m | m in Family(files, p) && m != p && OneBranch(files, n, m) ensures m in Family(files, c) {
      SameBranch(files, p, c, n, m);
    }
  }

  lemma SameBranch(files: Files, p: Id, c: Id, n: Id, m: Id)
    requires Acyclic(files) && p != 0 && c in files && files[c].parentId == p && n in Family(files, c)
    requires m in Family(files, p) && m != p && OneBranch(files, n, m)
    ensures m in Family(files, c)
  {
    BelowItself(files, c);
    if Below(files, m, n) {
      BelowTransitive(files, m, n, c);
    } else {
      var k: nat :| Up(files, m, k) == p;
      var d := ChildAbove(files, m, p, k);
      BelowTransitive(files, n, m, d);
      if d != c {
        SiblingsApart(files, n, c, d);
      }
    }
  }

  /** What goes is closed downwards, so no node loses its parent. */
  lemma RemovedDownClosed(files: Files, shouldDelete: string -> bool, p: Id)
    requires Acyclic(files) && p != 0
    ensures DownClosed(files, Removed(files, shouldDelete, p)) && 0 !in Removed(files, shouldDelete, p)
  {
    FamilyDownClosed(files, p);
    forall x | x in files && files[x].parentId in Removed(files, shouldDelete, p)
      ensures x in Removed(files, shouldDelete, p)
    {
      var n := files[x].parentId;
      BelowParent(files, x);
      BelowItself(files, n);
      forall m | m in Family(files, p) && OneBranch(files, x, m) ensures OneBranch(files, n, m) {
        AboveParent(files, x, m);
      }
    }
  }

  lemma AboveParent(files: Files, x: Id, m: Id)
    requires Acyclic(files) && x in files && OneBranch(files, x, m)
    ensures OneBranch(files, files[x].parentId, m)
  {
    var n := files[x].parentId;
    BelowParent(files, x);
    if Below(files, m, x) {
      BelowTransitive(files, m, x, n);
    } else {
      var k: nat :| Up(files, x, k) == m;
      if k == 0 {
        BelowItself(files, m);
      } else {
        assert Up(files, n, k - 1) == m;
      }
    }
  }

  /** What goes below the first i of these nodes. */
  ghost function RemovedBelow(files: Files, shouldDelete: string -> bool, kids: seq<Id>, i: nat): set<Id>
    requires Acyclic(files) && i <= |kids|
  {
    if i == 0 then {} else RemovedBelow(files, shouldDelete, kids, i - 1) + Removed(files, shouldDelete, kids[i - 1])
  }

  lemma {:induction false} InRemovedBelow(files: Files, shouldDelete: string -> bool, kids: seq<Id>, i: nat, n: Id)
    requires Acyclic(files) && i <= |kids|
    ensures n in RemovedBelow(files, shouldDelete, kids, i) <==>
      exists j :: 0 <= j < i && n in Removed(files, shouldDelete, kids[j])
  {
    if i > 0 {
      InRemovedBelow(files, shouldDelete, kids, i - 1, n);
    }
  }

  lemma {:induction false} RemovedBelowDownClosed(files: Files, shouldDelete: string -> bool, kids: seq<Id>, i: nat)
    requires Acyclic(files) && Apart(files, kids) && i <= |kids|
    ensures DownClosed(files, RemovedBelow(files, shouldDelete, kids, i)) &&
      0 !in RemovedBelow(files, shouldDelete, kids, i)
    ensures RemovedBelow(files, shouldDelete, kids, i) <= Families(files, kids[..i])
  {
    if i > 0 {
      RemovedBelowDownClosed(files, shouldDelete, kids, i - 1);
      ApartPrefix(files, kids, i - 1);
      RemovedDownClosed(files, shouldDelete, kids[i - 1]);
      assert kids[..i][..i - 1] == kids[..i - 1];
    }
  }

  /** The i-th child, when what goes below the earlier children is gone. */
  lemma NextCandidate(children: Children, files: Files, shouldDelete: string -> bool, p: Id, i: nat, rest: Files)
    requires Forest(children, files) && p != 0 && i < |GetChildren(children, p)|
    requires rest == files - RemovedBelow(files, shouldDelete, GetChildren(children, p), i)
    ensures Acyclic(rest)
    ensures var kids := GetChildren(children, p);
      kids[i] != 0 && kids[i] in rest && Family(rest, kids[i]) < Family(files, p) &&
      Removed(rest, shouldDelete, kids[i]) == Removed(files, shouldDelete, kids[i]) &&
      rest - Removed(files, shouldDelete, kids[i]) == files - RemovedBelow(files, shouldDelete, kids, i + 1)
  {
    var kids := GetChildren(children, p);
    var gone := RemovedBelow(files, shouldDelete, kids, i);
    ChildFamilies(children, files, p);
    ChildFamily(children, files, p, i);
    RemovedBelowDownClosed(files, shouldDelete, kids, i);
    RestStays(files, gone, kids[i]);
    SameRemoved(files, rest, shouldDelete, kids[i]);
    assert kids[i] in Family(files, kids[i]);
  }

  lemma SameRemoved(files: Files, rest: Files, shouldDelete: string -> bool, c: Id)
    requires Acyclic(files) && Acyclic(rest) && Family(rest, c) == Family(files, c)
    requires forall n, m :: n in Family(files, c) ==> (Below(rest, n, m) <==> Below(files, n, m))
    requires forall n :: n in Family(files, c) ==> PathOf(rest, n) == PathOf(files, n)
    ensures Removed(rest, shouldDelete, c) == Removed(files, shouldDelete, c)
  {
    forall n | n in Family(files, c)
      ensures BranchGoes(rest, shouldDelete, c, n) <==> BranchGoes(files, shouldDelete, c, n)
    {
      assert forall m :: m in Family(files, c) ==> (OneBranch(rest, n, m) <==> OneBranch(files, n, m));
    }
  }

  /**
    Below a node that is to go, what is taken away is what is taken away below its children,
    and itself if that was all.
   */
  lemma RemovedUnfolds(children: Children, files: Files, shouldDelete: string -> bool, p: Id)
    requires Forest(children, files) && p != 0 && shouldDelete(PathOf(files, p))
    ensures var kids := GetChildren(children, p);
      RemovedBelow(files, shouldDelete, kids, |kids|) == Removed(files, shouldDelete, p) - {p}
    ensures p in Removed(files, shouldDelete, p) <==>
      forall c :: c in GetChildren(children, p) ==> c in Removed(files, shouldDelete, c)
  {
    var kids := GetChildren(children, p);
    forall n
      ensures n in RemovedBelow(files, shouldDelete, kids, |kids|) <==> n in Removed(files, shouldDelete, p) && n != p
    {
      InRemovedBelow(files, shouldDelete, kids, |kids|, n);
      RemovedThroughChild(children, files, shouldDelete, p, n);
    }
    RootGoes(files, shouldDelete, p);
    forall c | c in kids
      ensures c in Removed(files, shouldDelete, c) <==>
        forall m :: m in Family(files, c) ==> shouldDelete(PathOf(files, m))
    {
      RootGoes(files, shouldDelete, c);
    }
    forall m ensures m in Family(files, p) <==> m == p || exists c :: c in kids && m in Family(files, c) {
      FamilyUnfolds(files, p, m);
    }
  }

  lemma RemovedThroughChild(children: Children, files: Files, shouldDelete: string -> bool, p: Id, n: Id)
    requires Forest(children, files) && p != 0 && shouldDelete(PathOf(files, p))
    ensures n in Removed(files, shouldDelete, p) && n != p <==>
      exists c :: c in GetChildren(children, p) && n in Removed(files, shouldDelete, c)
  {
    var kids := GetChildren(children, p);
    if n in Removed(files, shouldDelete, p) && n != p {
      FamilyUnfolds(files, p, n);
      var c :| c in files && files[c].parentId == p && n in Family(files, c);
      BranchThroughChild(files, shouldDelete, p, c, n);
      assert c in kids && n in Removed(files, shouldDelete, c);
    }
    forall c | c in kids && n in Removed(files, shouldDelete, c)
      ensures n in Removed(files, shouldDelete, p) && n != p
    {
      BranchThroughChild(files, shouldDelete, p, c, n);
    }
  }
}
