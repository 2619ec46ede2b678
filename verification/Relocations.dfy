/** What moving an entry of the directory forest does to all paths (src/file/metadatamover.cpp). */
module Relocations {
  import opened IdUtils
  import opened IdTree
  import opened Urls
  import opened TreeUpdates
  import opened DocumentUrlDBs

  /** The entry to which these names lead from the top level down, or 0. */
  ghost function Located(files: Files, names: seq<string>): (id: Id)
    ensures id != 0 ==> Leads(files, names, id)
    ensures id == 0 ==> forall n :: n != 0 ==> !Leads(files, names, n)
  {
    if n: Id :| n != 0 && Leads(files, names, n) then n else 0
  }

  /** With unique sibling names a lookup leaves no choice. */
  lemma LocatedIs(files: Files, names: seq<string>, r: Id)
    requires UniqueNames(files)
    requires if r != 0 then Leads(files, names, r) else forall n :: n != 0 ==> !Leads(files, names, n)
    ensures r == Located(files, names)
  {
    var id := Located(files, names);
    if r != 0 && id != 0 {
      LeadsToOne(files, names, r, id);
    }
  }

  /** In a forest it is the entry with these names. */
  lemma LocatedNames(files: Files, names: seq<string>)
    requires Acyclic(files)
    ensures var id := Located(files, names);
      if id != 0 then id in files && Names(files, id) == names else forall n :: n in files ==> Names(files, n) != names
  {
    LookedUp(files, names, Located(files, names));
  }

  lemma LocatedByNames(files: Files, names: seq<string>, r: Id)
    requires Acyclic(files) && UniqueNames(files)
    requires if r != 0 then r in files && Names(files, r) == names
             else forall n :: n in files ==> Names(files, n) != names
    ensures r == Located(files, names)
  {
    LocatedNames(files, names);
    var id := Located(files, names);
    if r != 0 && id != 0 {
      NamesIdentify(files, r, id);
    }
  }

  /** The names of an ancestor are the first names of the entry. */
  lemma {:induction false} AboveIsPrefix(files: Files, n: Id, m: Id, k: nat)
    requires Acyclic(files) && n in files && m in files && Up(files, n, k) == m
    ensures Names(files, m) <= Names(files, n)
    decreases k
  {
    if k > 0 {
      ParentGrounded(files, n);
      var p := files[n].parentId;
      assert Up(files, p, k - 1) == m;
      if p in files {
        AboveIsPrefix(files, p, m, k - 1);
      }
    }
  }

  /** An entry lies below another exactly when its names start with the other's. */
  lemma BelowIsPrefix(files: Files, n: Id, m: Id)
    requires Acyclic(files) && UniqueNames(files) && n in files && m in files
    ensures Below(files, n, m) <==> Names(files, m) <= Names(files, n)
  {
    if Below(files, n, m) {
      var k: nat :| Up(files, n, k) == m;
      AboveIsPrefix(files, n, m, k);
    }
    if Names(files, m) <= Names(files, n) {
      ParentGrounded(files, m);
      var a := AncestorAt(files, n, |Names(files, m)|);
      NamesIdentify(files, a, m);
    }
  }

  /** Both before and after a move, an entry's path is the moved entry's path and the same rest. */
  ghost predicate SameRest(files: Files, files': Files, id: Id, n: Id)
    requires Acyclic(files) && Acyclic(files') && id in files && id in files' && n in files && n in files'
  {
    exists rest: string, names: seq<string> :: WithRest(files, files', id, n, rest, names)
  }

  ghost predicate WithRest(files: Files, files': Files, id: Id, n: Id, rest: string, names: seq<string>)
    requires Acyclic(files) && Acyclic(files') && id in files && id in files' && n in files && n in files'
  {
    Url(files, n) == Url(files, id) + rest && Url(files', n) == Url(files', id) + rest &&
    Names(files, n) == Names(files, id) + names && Names(files', n) == Names(files', id) + names
  }

  lemma {:induction false} Rebased(files: Files, files': Files, id: Id, n: Id, k: nat)
    requires Acyclic(files) && Acyclic(files') && SameBut(files, files', id)
    requires id in files && id in files' && n in files && n in files' && Up(files, n, k) == id
    ensures SameRest(files, files', id, n)
    decreases k
  {
    if n == id {
      assert WithRest(files, files', id, n, "", []);
    } else {
      var p := files[n].parentId;
      assert Up(files, p, k - 1) == id;
      assert p in files && p in files';
      Rebased(files, files', id, p, k - 1);
      var rest: string, names: seq<string> :| WithRest(files, files', id, p, rest, names);
      UrlGrows(files, n);
      UrlGrows(files', n);
      RestGrows(Url(files, id), rest, files[n].name, Names(files, id), names);
      RestGrows(Url(files', id), rest, files[n].name, Names(files', id), names);
      assert WithRest(files, files', id, n, rest + "/" + files[n].name, names + [files[n].name]);
    }
  }

  lemma UrlGrows(files: Files, n: Id)
    requires Acyclic(files) && n in files && files[n].parentId in files
    ensures Url(files, n) == Url(files, files[n].parentId) + "/" + files[n].name
    ensures Names(files, n) == Names(files, files[n].parentId) + [files[n].name]
  {
    ParentGrounded(files, n);
  }

  lemma RestGrows(url: string, rest: string, last: string, top: seq<string>, names: seq<string>)
    ensures url + rest + "/" + last == url + (rest + "/" + last)
    ensures top + names + [last] == top + (names + [last])
  {
  }

  /** Entries that are not below the moved one keep their path. */
  lemma KeepsPath(files: Files, files': Files, id: Id, n: Id)
    requires Acyclic(files) && Acyclic(files') && SameBut(files, files', id) && !Below(files, n, id)
    requires n in files && n in files'
    ensures Url(files', n) == Url(files, n) && Names(files', n) == Names(files, n)
  {
    SameAbove(files, files', n);
  }

  /** An entry is about to move to a free place in a directory. */
  ghost predicate FreePlace(files: Files, id: Id, parent: Id, name: string) {
    Acyclic(files) && UniqueNames(files) && id in files && parent in files &&
    forall n :: n in files ==> files[n] != FilePath(parent, name)
  }

  /** The forest survives unless the directory is the moved entry or lies below it. */
  lemma MoveSucceeds(files: Files, id: Id, parent: Id, name: string)
    requires FreePlace(files, id, parent, name)
    ensures Acyclic(files[id := FilePath(parent, name)]) <==> !(Names(files, id) <= Names(files, parent))
  {
    MoveAcyclic(files, id, parent, name);
    BelowIsPrefix(files, parent, id);
  }

  /** Sibling names stay unique, and the moved entry is where it was moved to. */
  lemma MoveLands(files: Files, files': Files, id: Id, parent: Id, name: string)
    requires FreePlace(files, id, parent, name) && files' == files[id := FilePath(parent, name)] && Acyclic(files')
    ensures UniqueNames(files') && !Below(files, parent, id)
    ensures Names(files', id) == Names(files, parent) + [name] && Url(files', id) == Url(files, parent) + "/" + name
  {
    MoveAcyclic(files, id, parent, name);
    KeepsPath(files, files', id, parent);
    ParentGrounded(files', id);
  }

  /** Exactly the paths of the moved subtree change, and they change in the part that was moved. */
  lemma MoveRebases(files: Files, files': Files, id: Id, parent: Id, name: string, n: Id)
    requires FreePlace(files, id, parent, name) && files' == files[id := FilePath(parent, name)] && Acyclic(files') &&
      n in files
    ensures Below(files, n, id) ==> SameRest(files, files', id, n)
    ensures !Below(files, n, id) ==> Url(files', n) == Url(files, n) && Names(files', n) == Names(files, n)
  {
    if Below(files, n, id) {
      var k: nat :| Up(files, n, k) == id;
      Rebased(files, files', id, n, k);
    } else {
      KeepsPath(files, files', id, n);
    }
  }

  /** Nothing is left at the old path. */
  lemma OldPlaceEmpty(files: Files, files': Files, id: Id, parent: Id, name: string)
    requires FreePlace(files, id, parent, name) && files' == files[id := FilePath(parent, name)] && Acyclic(files')
    ensures Located(files', Names(files, id)) == 0
  {
    LocatedNames(files', Names(files, id));
    forall n | n in files' ensures Names(files', n) != Names(files, id) {
      MoveRebases(files, files', id, parent, name, n);
      if Below(files, n, id) {
        MoveLands(files, files', id, parent, name);
        if Names(files', n) == Names(files, id) {
          TargetAboveSource(files, id, parent, name);
        }
      } else if Names(files', n) == Names(files, id) {
        NamesIdentify(files, n, id);
        BelowItself(files, id);
      }
    }
  }

  /** A free place is not on the way to the moved entry. */
  lemma TargetAboveSource(files: Files, id: Id, parent: Id, name: string)
    requires FreePlace(files, id, parent, name)
    ensures !(Names(files, parent) + [name] <= Names(files, id))
  {
    if Names(files, parent) + [name] <= Names(files, id) {
      ParentGrounded(files, parent);
      var target := Names(files, parent) + [name];
      var a := AncestorAt(files, id, |target|);
      assert Names(files, a) == target;
      ParentGrounded(files, a);
      SameNames(files, files[a].parentId, parent, files[a].name, name);
    }
  }

  /** Looking up the new path finds the moved entry, looking up the old one finds nothing. */
  lemma MoveIsFound(files: Files, files': Files, id: Id, parent: Id, name: string)
    requires FreePlace(files, id, parent, name) && files' == files[id := FilePath(parent, name)] && Acyclic(files')
    ensures UniqueNames(files') && Located(files', Names(files, parent) + [name]) == id &&
      Located(files', Names(files, id)) == 0
  {
    MoveLands(files, files', id, parent, name);
    OldPlaceEmpty(files, files', id, parent, name);
    LocatedByNames(files', Names(files, parent) + [name], id);
  }

  /** Removing whole subtrees leaves the other entries and their paths alone. */
  lemma RemovalKeepsNames(files: Files, gone: set<Id>)
    requires Acyclic(files) && 0 !in gone && DownClosed(files, gone)
    ensures Acyclic(files - gone) && (UniqueNames(files) ==> UniqueNames(files - gone))
    ensures ProperNames(files) ==> ProperNames(files - gone)
    ensures forall n :: n in files - gone ==>
      Names(files - gone, n) == Names(files, n) && Url(files - gone, n) == Url(files, n)
  {
    RemovalKeepsUp(files, gone);
    forall n | n in files - gone
      ensures Names(files - gone, n) == Names(files, n) && Url(files - gone, n) == Url(files, n)
    {
      forall m | Below(files, n, m) ensures m !in gone {
        var k: nat :| Up(files, n, k) == m;
        UpAfterRemoval(files, gone, n, k);
      }
      SameAbove(files, files - gone, n);
    }
  }

  /** Once the entry at a path is gone, its place is free. */
  lemma PlaceFreed(files: Files, gone: set<Id>, id: Id, parent: Id, name: string)
    requires Acyclic(files) && UniqueNames(files) && 0 !in gone && DownClosed(files, gone)
    requires id in files - gone && parent in files - gone
    requires var target := Located(files, Names(files, parent) + [name]); target == 0 || target in gone
    ensures FreePlace(files - gone, id, parent, name)
  {
    RemovalKeepsNames(files, gone);
    forall n | n in files - gone ensures files[n] != FilePath(parent, name) {
      if files[n] == FilePath(parent, name) {
        ParentGrounded(files, n);
        LocatedByNames(files, Names(files, parent) + [name], n);
      }
    }
  }
}
