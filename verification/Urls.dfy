/**
  Depths and paths of the entries of the directory forest, by following parents
  up to the top level.
 */
module Urls {
  import opened IdUtils
  import opened IdTree
  import opened Paths

  /** The number of entries from n up to its top-level ancestor, n included. */
  ghost function Depth(files: Files, n: Id): (k: nat)
    requires Grounded(files, n)
    ensures Up(files, n, k) == 0 && forall j :: 0 <= j < k ==> Up(files, n, j) != 0
  {
    var k: nat :| Up(files, n, k) == 0;
    LeastZero(files, n, 0, k)
  }

  ghost function LeastZero(files: Files, n: Id, from: nat, k: nat): (r: nat)
    requires from <= k && Up(files, n, k) == 0
    ensures from <= r <= k && Up(files, n, r) == 0 && forall j :: from <= j < r ==> Up(files, n, j) != 0
    decreases k - from
  {
    if Up(files, n, from) == 0 then from else LeastZero(files, n, from + 1, k)
  }

  lemma ParentGrounded(files: Files, n: Id)
    requires 0 !in files && n in files && Grounded(files, n)
    ensures Grounded(files, files[n].parentId)
    ensures Depth(files, n) == Depth(files, files[n].parentId) + 1
  {
    var k := Depth(files, n);
    assert Up(files, n, 0) == n;
    assert Up(files, files[n].parentId, k - 1) == 0;
    var j := Depth(files, files[n].parentId);
    assert Up(files, n, j + 1) == 0;
    assert j + 1 >= k;
  }

  /** The path of an entry: the names from the top level down, each after a '/'. */
  ghost function Url(files: Files, n: Id): string
    requires 0 !in files && Grounded(files, n)
    decreases Depth(files, n)
  {
    if n !in files then "" else
      ParentGrounded(files, n);
      Url(files, files[n].parentId) + "/" + files[n].name
  }

  /** The same as a list of names. */
  ghost function Names(files: Files, n: Id): seq<string>
    requires 0 !in files && Grounded(files, n)
    decreases Depth(files, n)
  {
    if n !in files then [] else
      ParentGrounded(files, n);
      Names(files, files[n].parentId) + [files[n].name]
  }

  ghost predicate ProperNames(files: Files) {
    forall n :: n in files ==> IsName(files[n].name)
  }

  /** No two entries of one directory have the same name. */
  predicate UniqueNames(files: Files) {
    forall a, b ::
      a in files && b in files && files[a].parentId == files[b].parentId && files[a].name == files[b].name ==> a == b
  }

  /** These names lead from the top level down to an entry, in any tables. */
  ghost predicate Leads(files: Files, names: seq<string>, n: Id)
    decreases |names|
  {
    if names == [] then n == 0 else
      var k := |names| - 1;
      n in files && files[n].name == names[k] && Leads(files, names[..k], files[n].parentId)
  }

  /** With unique sibling names they lead to at most one. */
  lemma {:induction false} LeadsToOne(files: Files, names: seq<string>, a: Id, b: Id)
    requires UniqueNames(files) && Leads(files, names, a) && Leads(files, names, b)
    ensures a == b
    decreases |names|
  {
    if names != [] {
      LeadsToOne(files, names[..|names| - 1], files[a].parentId, files[b].parentId);
    }
  }

  /** In a forest they lead to the entry that has them. */
  lemma {:induction false} LeadsIsNames(files: Files, names: seq<string>, n: Id)
    requires Acyclic(files) && n in files
    ensures Leads(files, names, n) <==> Names(files, n) == names
    decreases |names|
  {
    var p := files[n].parentId;
    ParentGrounded(files, n);
    var above := Names(files, p);
    assert Names(files, n) == above + [files[n].name];
    if names != [] {
      var k := |names| - 1;
      assert names == names[..k] + [names[k]];
      assert (above + [files[n].name])[..|above|] == above;
      if p in files {
        LeadsIsNames(files, names[..k], p);
      } else if k > 0 {
        assert !Leads(files, names[..k], p);
      }
    }
  }

  /** Where no child has the next name, the names lead nowhere. */
  lemma {:induction false} LeadsNowhere(files: Files, names: seq<string>, r: Id, k: nat, n: Id)
    requires UniqueNames(files) && k < |names| && Leads(files, names[..k], r)
    requires forall m :: m in files ==> files[m] != FilePath(r, names[k])
    ensures !Leads(files, names, n)
    decreases |names|
  {
    if Leads(files, names, n) {
      var before, p := names[..|names| - 1], files[n].parentId;
      if k == |before| {
        LeadsToOne(files, before, p, r);
      } else {
        assert before[..k] == names[..k];
        LeadsNowhere(files, before, r, k, p);
      }
    }
  }

  /** Splitting the path of an entry gives back its names. */
  lemma {:induction false} UrlComponents(files: Files, n: Id)
    requires 0 !in files && Grounded(files, n) && ProperNames(files)
    ensures Components(Url(files, n)) == Names(files, n)
    decreases Depth(files, n)
  {
    if n in files {
      ParentGrounded(files, n);
      UrlComponents(files, files[n].parentId);
      ComponentsAppend(Url(files, files[n].parentId), files[n].name);
    } else {
      ComponentsOfEmpty();
    }
  }

  /** With unique sibling names, the names of an entry identify it. */
  lemma {:induction false} NamesIdentify(files: Files, a: Id, b: Id)
    requires Acyclic(files) && UniqueNames(files) && a in files && b in files
    requires Names(files, a) == Names(files, b)
    ensures a == b
    decreases Depth(files, a)
  {
    ParentGrounded(files, a);
    ParentGrounded(files, b);
    var p, q := files[a].parentId, files[b].parentId;
    assert Names(files, a) == Names(files, p) + [files[a].name];
    assert Names(files, b) == Names(files, q) + [files[b].name];
    assert Names(files, a)[..|Names(files, p)|] == Names(files, p);
    assert Names(files, b)[..|Names(files, q)|] == Names(files, q);
    if p in files && q in files {
      NamesIdentify(files, p, q);
    } else if p in files {
      ParentGrounded(files, p);
    } else if q in files {
      ParentGrounded(files, q);
    }
  }

  /** Two forests that agree on n and everything above it give it the same path, names and depth. */
  lemma {:induction false} SameAbove(files: Files, files': Files, n: Id)
    requires 0 !in files && 0 !in files' && Grounded(files, n)
    requires forall m :: Below(files, n, m) ==>
      ((m in files <==> m in files') && (m in files ==> files'[m] == files[m]))
    ensures Grounded(files', n)
    ensures Url(files', n) == Url(files, n) && Names(files', n) == Names(files, n) &&
      Depth(files', n) == Depth(files, n)
    decreases Depth(files, n)
  {
    BelowItself(files, n);
    if n in files {
      var p := files[n].parentId;
      ParentGrounded(files, n);
      BelowParent(files, n);
      forall m | Below(files, p, m) ensures Below(files, n, m) {
        BelowTransitive(files, n, p, m);
      }
      SameAbove(files, files', p);
      var k: nat :| Up(files', p, k) == 0;
      assert Up(files', n, k + 1) == 0;
      ParentGrounded(files', n);
    } else {
      var k := Depth(files, n);
      assert Up(files', n, 0) == n && Up(files', n, 1) == 0;
      assert Up(files, n, 1) == 0;
      var k' := Depth(files', n);
      if n == 0 {
        assert k == 0 && k' == 0;
      } else {
        assert k == 1 && k' == 1;
      }
    }
  }
}
