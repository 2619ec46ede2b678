/**
  The directory forest that the engine stores twice: `files` maps an id to its
  parent and name (IdFilenameDB), `children` maps a parent to the sorted list of
  its children (IdTreeDB, src/engine/idtreedb.cpp).
 */
module IdTree {
  import opened IdUtils

  datatype FilePath = FilePath(parentId: Id, name: string)

  type Files = map<Id, FilePath>
  type Children = map<Id, seq<Id>>

  /** IdTreeDB::get: no entry reads as no children. */
  function GetChildren(children: Children, id: Id): seq<Id> {
    if id in children then children[id] else []
  }

  /** IdTreeDB::set: an empty list is never stored. */
  function SetChildren(children: Children, id: Id, list: seq<Id>): Children {
    if list == [] then children - {id} else children[id := list]
  }

  /** The two tables are inverse to each other; child lists are sorted and never stored empty. */
  ghost predicate Mirror(children: Children, files: Files) {
    (forall q :: q in children ==> children[q] != [] && Ascending(children[q], IdOf)) &&
    (forall q, id :: id in GetChildren(children, q) <==> id in files && files[id].parentId == q)
  }

  /** The k-th ancestor of n; 0 above a top-level entry. */
  ghost function Up(files: Files, n: Id, k: nat): Id
    decreases k
  {
    if k == 0 then n else if n in files then Up(files, files[n].parentId, k - 1) else 0
  }

  /** Following parents from n ends at 0. */
  ghost predicate Grounded(files: Files, n: Id) {
    exists k: nat :: Up(files, n, k) == 0
  }

  /** Every parent is known, and there are no cycles. */
  ghost predicate Acyclic(files: Files) {
    0 !in files &&
    (forall n {:trigger files[n].parentId} :: n in files ==> files[n].parentId == 0 || files[n].parentId in files) &&
    (forall n {:trigger Grounded(files, n)} :: n in files ==> Grounded(files, n))
  }

  ghost predicate Forest(children: Children, files: Files) {
    Mirror(children, files) && Acyclic(files)
  }

  /** n is p or below p. */
  ghost predicate Below(files: Files, n: Id, p: Id) {
    exists k: nat :: Up(files, n, k) == p
  }

  /** p and every entry below it. */
  ghost function Family(files: Files, p: Id): set<Id> {
    {p} + set n | n in files && Below(files, n, p)
  }

  /** Climbing j steps and then k more is climbing j + k. */
  lemma {:induction false} UpAdds(files: Files, n: Id, j: nat, k: nat)
    requires 0 !in files
    ensures Up(files, n, j + k) == Up(files, Up(files, n, j), k)
    decreases j
  {
    if j > 0 && n in files {
      UpAdds(files, files[n].parentId, j - 1, k);
      assert Up(files, n, j + k) == Up(files, files[n].parentId, j - 1 + k);
    }
  }

  /** No entry of a forest is its own ancestor. */
  lemma {:induction false} NoCycle(files: Files, n: Id, m: nat, k: nat)
    requires 0 !in files && n != 0 && m > 0 && Up(files, n, k) == 0
    ensures Up(files, n, m) != n
    decreases k
  {
    if Up(files, n, m) == n {
      if m > k {
        UpAdds(files, n, k, m - k);
      } else {
        UpAdds(files, n, m, k - m);
        NoCycle(files, n, m, k - m);
      }
    }
  }

  lemma BelowTransitive(files: Files, n: Id, m: Id, p: Id)
    requires 0 !in files && Below(files, n, m) && Below(files, m, p)
    ensures Below(files, n, p)
  {
    var j: nat :| Up(files, n, j) == m;
    var k: nat :| Up(files, m, k) == p;
    UpAdds(files, n, j, k);
  }

  lemma BelowItself(files: Files, p: Id)
    ensures Below(files, p, p)
  {
    assert Up(files, p, 0) == p;
  }

  lemma BelowParent(files: Files, n: Id)
    requires n in files
    ensures Below(files, n, files[n].parentId)
  {
    assert Up(files, n, 1) == Up(files, files[n].parentId, 0);
  }

  /** Anything strictly below p is below exactly one child of p: this finds it. */
  lemma {:induction false} ChildAbove(files: Files, n: Id, p: Id, k: nat) returns (c: Id)
    requires Acyclic(files) && n != p && n in files && Up(files, n, k) == p
    ensures c in files && files[c].parentId == p && Below(files, n, c)
    decreases k
  {
    if files[n].parentId == p {
      BelowItself(files, n);
      return n;
    }
    var m := files[n].parentId;
    assert Up(files, n, k) == Up(files, m, k - 1);
    c := ChildAbove(files, m, p, k - 1);
    BelowParent(files, n);
    BelowTransitive(files, n, m, c);
  }

  /** Two children of one parent have disjoint families. */
  lemma SiblingsApart(files: Files, n: Id, c: Id, d: Id)
    requires Acyclic(files) && c in files && d in files && c != d && files[c].parentId == files[d].parentId
    requires Below(files, n, c)
    ensures !Below(files, n, d)
  {
    if Below(files, n, d) {
      var j: nat :| Up(files, n, j) == c;
      var k: nat :| Up(files, n, k) == d;
      if j < k {
        SiblingNotAbove(files, n, c, d, j, k);
      } else if k < j {
        SiblingNotAbove(files, n, d, c, k, j);
      }
    }
  }

  lemma SiblingNotAbove(files: Files, n: Id, c: Id, d: Id, j: nat, k: nat)
    requires Acyclic(files) && c in files && d in files && files[c].parentId == files[d].parentId
    requires j < k && Up(files, n, j) == c
    ensures Up(files, n, k) != d
  {
    UpAdds(files, n, j, k - j);
    if Up(files, n, k) == d {
      var p := files[c].parentId;
      assert Up(files, c, k - j) == Up(files, p, k - j - 1) == d;
      assert Up(files, d, 1) == Up(files, p, 0) == p;
      UpAdds(files, d, 1, k - j - 1);
      assert Grounded(files, d);
      var g: nat :| Up(files, d, g) == 0;
      NoCycle(files, d, k - j, g);
    }
  }

  /** A child is not above its parent. */
  lemma ParentNotBelow(files: Files, c: Id)
    requires Acyclic(files) && c in files
    ensures !Below(files, files[c].parentId, c)
  {
    var p := files[c].parentId;
    if Below(files, p, c) {
      var k: nat :| Up(files, p, k) == c;
      assert Up(files, c, k + 1) == c;
      assert Grounded(files, c);
      var g: nat :| Up(files, c, g) == 0;
      NoCycle(files, c, k + 1, g);
    }
  }

  /** A family is its root and the families of the root's children. */
  lemma FamilyUnfolds(files: Files, p: Id, n: Id)
    requires Acyclic(files) && p != 0
    ensures n in Family(files, p) <==>
      n == p || exists c :: c in files && files[c].parentId == p && n in Family(files, c)
  {
    if n in Family(files, p) && n != p {
      var k: nat :| Up(files, n, k) == p;
      var c := ChildAbove(files, n, p, k);
      assert n in Family(files, c);
    }
    if c :| c in files && files[c].parentId == p && n in Family(files, c) {
      BelowItself(files, c);
      BelowParent(files, c);
      BelowTransitive(files, n, c, p);
    }
  }
}
