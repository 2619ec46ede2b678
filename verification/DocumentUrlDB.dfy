/**
  The two tree tables and the operations on them (src/engine/documenturldb.cpp),
  with Transaction::documentId, the inverse lookup (src/engine/transaction.cpp).
  The file system is a function from paths to ids, 0 where nothing is found.
 */
module DocumentUrlDBs {
  import opened IdUtils
  import opened IdTree
  import opened Paths
  import opened Urls
  import opened TreeUpdates
  import opened AddPaths

  /** get() gives up beyond this many ancestors. */
  const DEPTH_LIMIT := 512

  /** An entry may be put under this parent: a new one under a known parent, a known one where it already is. */
  ghost predicate CanHang(files: Files, id: Id, parent: Id) {
    if id in files then files[id].parentId == parent else parent == 0 || parent in files
  }

  /** What get() answers: nothing for an unknown entry or one that lies too deep. */
  ghost function PathOf(files: Files, id: Id): string
    requires Acyclic(files)
  {
    if id in files && Depth(files, id) <= DEPTH_LIMIT + 1 then Url(files, id) else ""
  }

  datatype Route = Lost | Route(url: string)

  /** The way from the top level down to n, if it has at most that many entries and all of them are known. */
  ghost function Ascent(files: Files, n: Id, limit: nat): Route
    decreases limit
  {
    if n == 0 then Route("")
    else if n !in files || limit == 0 then Lost
    else Onward(Ascent(files, files[n].parentId, limit - 1), "/" + files[n].name)
  }

  ghost function Onward(route: Route, rest: string): Route {
    if route.Lost? then Lost else Route(route.url + rest)
  }

  lemma OnwardTwice(route: Route, a: string, b: string)
    ensures Onward(Onward(route, a), b) == Onward(route, a + b)
  {
    if route.Route? {
      assert route.url + a + b == route.url + (a + b);
    }
  }

  /** In a forest that is the path of every entry that is not too deep. */
  lemma {:induction false} AscentIsUrl(files: Files, n: Id, limit: nat)
    requires Acyclic(files)
    ensures n in files ==> Ascent(files, n, limit) == if Depth(files, n) <= limit then Route(Url(files, n)) else Lost
    decreases limit
  {
    TopDepth(files);
    if n in files {
      ParentGrounded(files, n);
      if limit > 0 {
        AscentIsUrl(files, files[n].parentId, limit - 1);
      }
    }
  }

  /** In any tables it ends at the top level, so an entry on or below a cycle has no path. */
  lemma {:induction false} AscentEnds(files: Files, n: Id, limit: nat)
    ensures Ascent(files, n, limit).Route? ==> Grounded(files, n)
    decreases limit
  {
    if n == 0 {
      assert Up(files, n, 0) == 0;
    } else if n in files && limit > 0 && Ascent(files, n, limit).Route? {
      AscentEnds(files, files[n].parentId, limit - 1);
      var k: nat :| Up(files, files[n].parentId, k) == 0;
      assert Up(files, n, k + 1) == 0;
    }
  }

  lemma PutAcyclic(files: Files, id: Id, parent: Id, name: string)
    requires Acyclic(files) && id != 0 && CanHang(files, id, parent)
    ensures Acyclic(files[id := FilePath(parent, name)])
  {
    if id in files {
      ParentNotBelow(files, id);
      MoveAcyclic(files, id, parent, name);
    } else {
      NewEntryAcyclic(files, files[id := FilePath(parent, name)], id, parent);
    }
  }

  /** A forest survives an entry exactly if the entry can hang there. */
  lemma PutForest(children: Children, files: Files, id: Id, parent: Id, name: string)
    requires Forest(children, files) && id != 0
    ensures Forest(AddChild(children, parent, id), files[id := FilePath(parent, name)]) <==> CanHang(files, id, parent)
  {
    AddMirror(children, files, id, parent, name);
    if id !in files {
      NewAcyclic(files, id, parent, name);
    } else if CanHang(files, id, parent) {
      PutAcyclic(files, id, parent, name);
    }
  }

  /** A new entry keeps the forest acyclic exactly if its parent is known. */
  lemma NewAcyclic(files: Files, id: Id, parent: Id, name: string)
    requires Acyclic(files) && id != 0 && id !in files
    ensures Acyclic(files[id := FilePath(parent, name)]) <==> parent == 0 || parent in files
  {
    var files' := files[id := FilePath(parent, name)];
    if parent == 0 || parent in files {
      NewEntryAcyclic(files, files', id, parent);
    } else if Acyclic(files') {
      assert files'[id].parentId == id && Grounded(files', id);
      OwnParent(files', id);
    }
  }

  /** An entry that is its own parent is on a cycle. */
  lemma OwnParent(files: Files, id: Id)
    requires id in files && files[id].parentId == id && id != 0
    ensures !Grounded(files, id)
  {
    forall k: nat ensures Up(files, id, k) != 0 {
      StaysThere(files, id, k);
    }
  }

  lemma {:induction false} StaysThere(files: Files, id: Id, k: nat)
    requires id in files && files[id].parentId == id
    ensures Up(files, id, k) == id
    decreases k
  {
    if k > 0 {
      StaysThere(files, id, k - 1);
    }
  }

  /** The entries of a path's directories are not the entry of the path. */
  lemma NotItsOwnDirectory(stat: string -> Id, files0: Files, files: Files, url: string, n: Id)
    requires Injective(stat) && CleanPath(url) && url != "" && stat(url) != 0
    requires AddedOnPath(stat, files0, files, ParentPath(url)) && n in files && n !in files0
    ensures n != stat(url) && files[n].parentId != stat(url)
  {
    var dir := ParentPath(url);
    assert OnPath(stat, files, dir, n);
    var k: nat :| EnteredAs(stat, files, Ancestor(dir, k), n);
    AncestorOfParent(url, k);
    AncestorOfParent(url, k + 1);
    AncestorsShrink(url, 0, k + 1);
    if n == stat(url) {
      assert SameFile(stat, Ancestor(dir, k), url);
    }
    if files[n].parentId == stat(url) {
      assert SameFile(stat, Ancestor(dir, k + 1), url);
      AncestorsShrink(url, 0, k + 2);
    }
  }

  lemma {:induction false} AncestorOfParent(url: string, k: nat)
    ensures Ancestor(ParentPath(url), k) == Ancestor(url, k + 1)
  {
    if k > 0 {
      AncestorOfParent(url, k - 1);
    }
  }

  /**
    After addPath for its directory and put for the file itself, the tables are a forest
    exactly if the directory reaches something known, and the file is new or already there.
   */
  lemma PlacedForest(stat: string -> Id, files0: Files, files: Files, children': Children, files': Files,
                     url: string, parent: Id, ok: bool)
    requires Injective(stat) && Acyclic(files0) && CleanPath(url) && url != "" && stat(url) != 0
    requires if ParentPath(url) == "" then files == files0 && parent == 0
             else Settled(stat, files0, files, ParentPath(url), ok) && parent == stat(ParentPath(url)) != 0
    requires files' == files[stat(url) := FilePath(parent, NameOf(url))]
    requires Mirror(children', files') <==> stat(url) !in files || files[stat(url)].parentId == parent
    ensures Forest(children', files') <==> Reaches(stat, files0, ParentPath(url)) && MayPut(files0, stat(url), parent)
  {
    var id, dir := stat(url), ParentPath(url);
    forall n | n in files && n !in files0 ensures n != id && files[n].parentId != id {
      NotItsOwnDirectory(stat, files0, files, url, n);
    }
    assert Extends(files0, files);
    assert MayPut(files0, id, parent) <==> MayPut(files, id, parent);
    if MayPut(files, id, parent) {
      if Reaches(stat, files0, dir) {
        PutAcyclic(files, id, parent, NameOf(url));
      } else {
        ParentUnknown(stat, files0, url, parent);
        NowhereToHang(files0, files, files', id, parent);
      }
    }
  }

  /** A directory that reaches nothing known is not known, and is not the file itself. */
  lemma ParentUnknown(stat: string -> Id, files0: Files, url: string, parent: Id)
    requires Injective(stat) && Acyclic(files0) && CleanPath(url) && url != "" && stat(url) != 0
    requires ParentPath(url) != "" && parent == stat(ParentPath(url)) != 0 && !Reaches(stat, files0, ParentPath(url))
    requires MayPut(files0, stat(url), parent)
    ensures parent !in files0 && parent != stat(url) && stat(url) !in files0
  {
    assert |ParentPath(url)| < |url| && !SameFile(stat, ParentPath(url), url);
  }

  /** The id is new to the tree, or already an entry of this directory. */
  predicate MayPut(files: Files, id: Id, parent: Id) {
    id in files ==> files[id].parentId == parent
  }

  /** If the directory reaches nothing known, the file hangs from an unknown entry, or one of its directories does. */
  lemma NowhereToHang(files0: Files, files: Files, files': Files, id: Id, parent: Id)
    requires id !in files && parent != id && parent != 0 && parent !in files0
    requires Acyclic(files) ==> files == files0
    requires forall n :: n in files ==> files[n].parentId != id
    requires SameBut(files, files', id) && files.Keys == files'.Keys - {id} && id in files' &&
      files'[id].parentId == parent
    ensures !Acyclic(files')
  {
    if Acyclic(files') {
      WithoutLeaf(files, files', id);
    }
  }

  /** A leaf that is new can be taken away again. */
  lemma WithoutLeaf(files: Files, files': Files, id: Id)
    requires Acyclic(files') && id !in files && SameBut(files, files', id) && files.Keys == files'.Keys - {id}
    requires forall n :: n in files ==> files[n].parentId != id
    requires id in files' && files'[id].parentId != id
    ensures Acyclic(files)
  {
    RemovalKeepsUp(files', {id});
    assert files' - {id} == files;
  }

  lemma NewEntryAcyclic(files: Files, files': Files, id: Id, parent: Id)
    requires Acyclic(files) && id != 0 && id !in files && (parent == 0 || parent in files)
    requires SameBut(files, files', id) && id in files' && files'[id].parentId == parent
    ensures Acyclic(files')
  {
    forall n | n in files || n == 0 ensures Grounded(files', n) {
      forall k: nat ensures Up(files, n, k) != id {
        UpStaysKnown(files, n, k);
      }
      if n == 0 {
        assert Up(files', 0, 0) == 0;
      } else {
        GroundedElsewhere(files, files', id, n);
      }
    }
    var k: nat :| Up(files', parent, k) == 0;
    assert Up(files', id, k + 1) == 0;
  }

  /** A new entry does not change the path of any other. */
  lemma NewEntryKeepsUrls(files: Files, files': Files, id: Id, n: Id)
    requires Acyclic(files) && Acyclic(files') && SameBut(files, files', id) && id !in files && n in files
    ensures Url(files', n) == Url(files, n)
  {
    forall m | Below(files, n, m) ensures m != id || id == 0 {
      var k: nat :| Up(files, n, k) == m;
      UpStaysKnown(files, n, k);
    }
    SameAbove(files, files', n);
  }

  /** A file found at a path whose directory is known gets the entry that path calls for. */
  lemma PlaceEntry(stat: string -> Id, files: Files, id: Id, path: string)
    requires Acyclic(files) && Agrees(stat, files) && ProperNames(files) && Injective(stat)
    requires CleanPath(path) && path != "" && id == stat(path) && id != 0
    requires ParentPath(path) == "" || DirId(stat, ParentPath(path)) in files
    ensures CanHang(files, id, DirId(stat, ParentPath(path)))
    ensures Acyclic(files[id := Entry(stat, path)]) && Extends(files, files[id := Entry(stat, path)])
  {
    if id in files {
      KnownEntry(stat, files, id, path);
      assert files[id := Entry(stat, path)] == files;
    } else {
      NewEntryAcyclic(files, files[id := Entry(stat, path)], id, DirId(stat, ParentPath(path)));
    }
  }

  /** ... and the tree still agrees with the file system. */
  lemma PlacedAgrees(stat: string -> Id, files: Files, files': Files, id: Id, path: string)
    requires Acyclic(files) && Agrees(stat, files) && ProperNames(files) && Injective(stat)
    requires CleanPath(path) && path != "" && id == stat(path) && id != 0
    requires ParentPath(path) == "" || DirId(stat, ParentPath(path)) in files
    requires files' == files[id := Entry(stat, path)] && Acyclic(files')
    ensures Agrees(stat, files') && ProperNames(files') && Url(files', id) == path
  {
    if id in files {
      KnownEntry(stat, files, id, path);
      assert files' == files;
    } else {
      NewUrl(stat, files, files', id, path);
      OthersAgree(stat, files, files', id);
    }
  }

  lemma OthersAgree(stat: string -> Id, files: Files, files': Files, id: Id)
    requires Acyclic(files) && Agrees(stat, files) && Acyclic(files')
    requires SameBut(files, files', id) && id !in files && id in files' && AgreesAt(stat, files', id)
    ensures Agrees(stat, files')
  {
    forall n | n in files' ensures AgreesAt(stat, files', n) {
      if n != id {
        assert AgreesAt(stat, files, n);
        NewEntryKeepsUrls(files, files', id, n);
      }
    }
  }

  lemma NewUrl(stat: string -> Id, files: Files, files': Files, id: Id, path: string)
    requires Acyclic(files) && Agrees(stat, files) && ProperNames(files) && Injective(stat) && Acyclic(files')
    requires CleanPath(path) && path != "" && id == stat(path) && id !in files &&
      files' == files[id := Entry(stat, path)]
    requires ParentPath(path) == "" || DirId(stat, ParentPath(path)) in files
    ensures Url(files', id) == path
  {
    var q := DirId(stat, ParentPath(path));
    TopDepth(files');
    ParentGrounded(files', id);
    PathParts(path);
    if q in files {
      assert AgreesAt(stat, files, q) && SameFile(stat, Url(files, q), ParentPath(path));
      NewEntryKeepsUrls(files, files', id, q);
    }
  }

  lemma KnownEntry(stat: string -> Id, files: Files, id: Id, path: string)
    requires Acyclic(files) && Agrees(stat, files) && ProperNames(files) && Injective(stat)
    requires CleanPath(path) && path != "" && id == stat(path) && id in files
    ensures Url(files, id) == path && files[id] == Entry(stat, path)
  {
    var q := files[id].parentId;
    TopDepth(files);
    ParentGrounded(files, id);
    assert AgreesAt(stat, files, id) && SameFile(stat, Url(files, id), path);
    assert q in files ==> AgreesAt(stat, files, q);
    LastPart(path, Url(files, q), files[id].name);
  }

  lemma LastPart(path: string, dir: string, name: string)
    requires path == dir + "/" + name && IsName(name)
    ensures ParentPath(path) == dir && NameOf(path) == name
  {
    LastSlashIs(path, |dir|);
  }

  class DocumentUrlDB {
    var idTree: Children
    var idFilename: Files
    /** What the file system has, which may change between operations. */
    var stat: string -> Id

    constructor (stat: string -> Id)
      ensures this.stat == stat && Forest(idTree, idFilename) && idFilename == map[]
    {
      this.stat, idTree, idFilename := stat, map[], map[];
    }

    method Add(id: Id, parentId: Id, name: string)
      modifies this`idTree, this`idFilename
      ensures id == 0 || name == "" ==> idTree == old(idTree) && idFilename == old(idFilename)
      ensures id != 0 && name != "" ==>
        idTree == AddChild(old(idTree), parentId, id) && idFilename == old(idFilename)[id := FilePath(parentId, name)]
    {
      if id == 0 || name == "" {
        return;
      }
      var subDocs := GetChildren(idTree, parentId);
      subDocs := SortedIdInsert(subDocs, id, IdOf);
      idTree := SetChildren(idTree, parentId, subDocs);
      idFilename := idFilename[id := FilePath(parentId, name)];
    }

    /** Refuses an empty id or name; otherwise the forest survives exactly if the entry can hang there. */
    method Put(docId: Id, parentId: Id, filename: string) returns (ok: bool)
      modifies this`idTree, this`idFilename
      ensures ok <==> docId != 0 && IsName(filename)
      ensures !ok ==> idTree == old(idTree) && idFilename == old(idFilename)
      ensures ok ==> idFilename == old(idFilename)[docId := FilePath(parentId, filename)]
      ensures ok && old(Mirror(idTree, idFilename)) ==>
        (Mirror(idTree, idFilename) <==> docId !in old(idFilename) || old(idFilename)[docId].parentId == parentId)
      ensures ok && old(Forest(idTree, idFilename)) ==>
        (Forest(idTree, idFilename) <==> CanHang(old(idFilename), docId, parentId))
    {
      if docId == 0 || filename == "" || '/' in filename {
        return false;
      }
      if Mirror(idTree, idFilename) {
        AddMirror(idTree, idFilename, docId, parentId, filename);
      }
      if Forest(idTree, idFilename) {
        PutForest(idTree, idFilename, docId, parentId, filename);
      }
      Add(docId, parentId, filename);
      return true;
    }

    /** Adds the entries for a path and its unknown ancestors. */
    method AddPath(url: string) returns (ok: bool)
      requires Forest(idTree, idFilename) && Injective(stat)
      requires url != "" && url[|url| - 1] != '/' ==> CleanPath(url)
      modifies this`idTree, this`idFilename
      ensures url == "" || url[|url| - 1] == '/' ==> !ok && idFilename == old(idFilename)
      ensures url != "" && url[|url| - 1] != '/' ==> Settled(stat, old(idFilename), idFilename, url, ok)
      ensures Mirror(idTree, idFilename)
    {
      if url == "" || url[|url| - 1] == '/' {
        return false;
      }
      ok := Climb(url);
    }

    method Climb(url: string) returns (ok: bool)
      requires Forest(idTree, idFilename) && Injective(stat) && CleanPath(url) && url != ""
      modifies this`idTree, this`idFilename
      ensures Mirror(idTree, idFilename) && Settled(stat, old(idFilename), idFilename, url, ok)
    {
      ghost var files0 := idFilename;
      var arr := url;
      var id: Id := stat(arr);
      ghost var k: nat := 0;
      ClimbStarts(stat, files0, url);
      while id != 0
        invariant Mirror(idTree, idFilename) && Climbing(stat, files0, idFilename, url, arr, id, k)
        decreases |arr|
      {
        if id in idFilename {
          ClimbEnds(stat, files0, idFilename, url, arr, id, k);
          return true;
        }
        var done, dir, parentId := AddStep(files0, url, arr, id, k);
        if done {
          return parentId != 0 || dir == "";
        }
        arr, id, k := dir, parentId, k + 1;
      }
      ClimbFails(stat, files0, idFilename, url, arr, id, k);
      return false;
    }

    /**
      One step of addPath: the entry for the current path is added, unless its directory
      cannot be found.  The climb is done then, and also at the root.
     */
    method AddStep(ghost files0: Files, ghost url: string, arr: string, id: Id, ghost k: nat)
      returns (done: bool, dir: string, parentId: Id)
      requires Acyclic(files0) && Injective(stat) && CleanPath(url) && url != ""
      requires Mirror(idTree, idFilename) && Climbing(stat, files0, idFilename, url, arr, id, k)
      requires id != 0 && id !in idFilename
      modifies this`idTree, this`idFilename
      ensures Mirror(idTree, idFilename) && (done <==> dir == "" || parentId == 0)
      ensures done ==> Settled(stat, files0, idFilename, url, parentId != 0 || dir == "")
      ensures !done ==> Climbing(stat, files0, idFilename, url, dir, parentId, k + 1) && |dir| < |arr|
    {
      dir := ParentPath(arr);
      parentId := DirId(stat, dir);
      if dir != "" && parentId == 0 {
        ClimbFails(stat, files0, idFilename, url, arr, id, k);
        return true, dir, parentId;
      }
      ghost var files' := idFilename[id := FilePath(parentId, NameOf(arr))];
      if dir == "" {
        LastEntry(stat, files0, idFilename, files', url, arr, id, k);
        ChainSettled(stat, files0, files', url, k + 1);
      } else {
        ClimbOn(stat, files0, idFilename, files', url, arr, id, k);
      }
      AddMirror(idTree, idFilename, id, parentId, NameOf(arr));
      Add(id, parentId, NameOf(arr));
      done := dir == "";
    }

    /**
      Moves an entry, with everything below it, under a new parent and name.  The forest
      survives exactly when the new parent is known and not inside the moved tree; an
      unknown id must not go to the top level either.
     */
    method UpdateUrl(id: Id, newParentId: Id, newName: string)
      requires id != 0 && newName != ""
      modifies this`idTree, this`idFilename
      ensures idFilename == old(idFilename)[id := FilePath(newParentId, newName)]
      ensures old(Forest(idTree, idFilename)) ==>
        (Mirror(idTree, idFilename) <==> id in old(idFilename) || newParentId != 0)
      ensures old(Forest(idTree, idFilename)) ==>
        (Forest(idTree, idFilename) <==>
          if id in old(idFilename) then MayMove(old(idFilename), id, newParentId) else newParentId in old(idFilename))
    {
      if Forest(idTree, idFilename) {
        MoveMirror(idTree, idFilename, id, newParentId, newName);
        if id in idFilename {
          MoveAcyclic(idFilename, id, newParentId, newName);
        } else {
          NewAcyclic(idFilename, id, newParentId, newName);
        }
      }
      var path := if id in idFilename then idFilename[id] else FilePath(0, "");
      if path.parentId != newParentId {
        idTree := RemoveChild(idTree, path.parentId, id);
        idTree := AddChild(idTree, newParentId, id);
      }
      if newName != path.name || newParentId != path.parentId {
        idFilename := idFilename[id := FilePath(newParentId, newName)];
      }
    }

    /** Removes one entry; its children, if any, lose their parent. */
    method Del(id: Id)
      modifies this`idTree, this`idFilename
      ensures idFilename == old(idFilename) - {id} || (id == 0 && idFilename == old(idFilename))
      ensures id == 0 ==> idTree == old(idTree)
      ensures old(Forest(idTree, idFilename)) && id in old(idFilename) ==>
        Mirror(idTree, idFilename) && (Forest(idTree, idFilename) <==> GetChildren(old(idTree), id) == [])
      ensures old(Forest(idTree, idFilename)) && id !in old(idFilename) ==>
        idTree == old(idTree) && idFilename == old(idFilename)
    {
      if id == 0 {
        return;
      }
      if Forest(idTree, idFilename) && id in idFilename {
        DelForest(idTree, idFilename, id);
      }
      var path := if id in idFilename then idFilename[id] else FilePath(0, "");
      idTree := RemoveChild(idTree, path.parentId, id);
      idFilename := idFilename - {id};
    }

    /**
      The path of a document, whatever the tables hold: empty unless its ancestors are known
      entries up to the top level and no more than DEPTH_LIMIT.
     */
    method Get(docId: Id) returns (ret: string)
      ensures ret == if docId == 0 || Ascent(idFilename, docId, DEPTH_LIMIT + 1).Lost? then ""
                     else Ascent(idFilename, docId, DEPTH_LIMIT + 1).url
      ensures Acyclic(idFilename) ==> ret == PathOf(idFilename, docId)
    {
      if Acyclic(idFilename) {
        AscentIsUrl(idFilename, docId, DEPTH_LIMIT + 1);
      }
      if docId == 0 || docId !in idFilename {
        return "";
      }
      var path := idFilename[docId];
      ret := "/" + path.name;
      var id := path.parentId;
      var depthLimit: nat := DEPTH_LIMIT;
      while id != 0
        invariant depthLimit <= DEPTH_LIMIT
        invariant Ascent(idFilename, docId, DEPTH_LIMIT + 1) == Onward(Ascent(idFilename, id, depthLimit), ret)
        decreases depthLimit
      {
        if id !in idFilename {
          return "";
        }
        path := idFilename[id];
        if depthLimit == 0 {
          return "";
        }
        depthLimit := depthLimit - 1;
        OnwardTwice(Ascent(idFilename, path.parentId, depthLimit), "/" + path.name, ret);
        ret := "/" + path.name + ret;
        id := path.parentId;
      }
    }

    /** The child of a directory with a given name, or 0. */
    method GetId(docId: Id, fileName: string) returns (r: Id)
      requires Mirror(idTree, idFilename)
      ensures r != 0 ==> r in idFilename && idFilename[r] == FilePath(docId, fileName)
      ensures r == 0 && 0 !in idFilename && fileName != "" ==>
        forall n :: n in idFilename ==> idFilename[n] != FilePath(docId, fileName)
      ensures fileName == "" ==> r == 0
    {
      if fileName == "" {
        return 0;
      }
      var subFiles := GetChildren(idTree, docId);
      for i := 0 to |subFiles|
        invariant forall j :: 0 <= j < i ==> idFilename[subFiles[j]].name != fileName
      {
        assert subFiles[i] in subFiles;
        if idFilename[subFiles[i]].name == fileName {
          return subFiles[i];
        }
      }
      forall n | n in idFilename ensures idFilename[n] != FilePath(docId, fileName) {
        assert n in GetChildren(idTree, idFilename[n].parentId);
      }
      return 0;
    }

    /**
      Transaction::documentId: walks down from the top level, name by name, in any tables
      that mirror each other.  With unique sibling names it finds the entry to which the
      names lead, and 0 exactly when there is none.
     */
    method DocumentId(path: string) returns (r: Id)
      requires Mirror(idTree, idFilename) && 0 !in idFilename
      ensures r != 0 ==> Leads(idFilename, Components(path), r)
      ensures r == 0 && UniqueNames(idFilename) ==> forall n :: n != 0 ==> !Leads(idFilename, Components(path), n)
    {
      var li := Split(path);
      r := 0;
      assert li[..0] == [];
      for i := 0 to |li|
        invariant Leads(idFilename, NonEmpty(li[..i]), r)
      {
        NextPart(li, i);
        if li[i] == "" {
          assert NonEmpty(li[..i + 1]) == NonEmpty(li[..i]);
          continue;
        }
        var child := GetId(r, li[i]);
        if child == 0 {
          if UniqueNames(idFilename) {
            NoSuchPath(idFilename, r, li, i);
          }
          return 0;
        }
        LeadsOn(idFilename, NonEmpty(li[..i]), r, li[i], child);
        r := child;
      }
      assert li[..|li|] == li;
    }
  }

  lemma NextPart(li: seq<string>, i: nat)
    requires i < |li|
    ensures NonEmpty(li[..i + 1]) == NonEmpty(li[..i]) + if li[i] == "" then [] else [li[i]]
  {
    assert li[..i + 1][..i] == li[..i];
  }

  lemma LeadsOn(files: Files, names: seq<string>, n: Id, name: string, child: Id)
    requires Leads(files, names, n) && child in files && files[child] == FilePath(n, name)
    ensures Leads(files, names + [name], child)
  {
    assert (names + [name])[..|names|] == names;
  }

  /** What the names lead to in a forest is what has them. */
  lemma LookedUp(files: Files, names: seq<string>, r: Id)
    requires Acyclic(files)
    ensures r != 0 && Leads(files, names, r) ==> r in files && Names(files, r) == names
    ensures (forall n :: n != 0 ==> !Leads(files, names, n)) ==> forall n :: n in files ==> Names(files, n) != names
  {
    if r in files {
      LeadsIsNames(files, names, r);
    }
    forall n | n in files ensures Names(files, n) == names ==> Leads(files, names, n) {
      LeadsIsNames(files, names, n);
    }
  }

  lemma TopDepth(files: Files)
    requires 0 !in files
    ensures Grounded(files, 0) && Depth(files, 0) == 0 && Url(files, 0) == "" && Names(files, 0) == []
  {
    assert Up(files, 0, 0) == 0;
  }

  lemma {:induction false} NonEmptyPrefix(li: seq<string>, i: nat)
    requires i <= |li|
    ensures |NonEmpty(li[..i])| <= |NonEmpty(li)| && NonEmpty(li)[..|NonEmpty(li[..i])|] == NonEmpty(li[..i])
    decreases |li| - i
  {
    if i < |li| {
      NonEmptyPrefix(li, i + 1);
      assert li[..i + 1][..i] == li[..i];
    } else {
      assert li[..i] == li;
    }
  }

  /** If the entry reached so far has no child with the next name, the whole list of names leads nowhere. */
  lemma NoSuchPath(files: Files, r: Id, li: seq<string>, i: nat)
    requires UniqueNames(files) && i < |li| && li[i] != "" && Leads(files, NonEmpty(li[..i]), r)
    requires forall n :: n in files ==> files[n] != FilePath(r, li[i])
    ensures forall n :: !Leads(files, NonEmpty(li), n)
  {
    NonEmptyPrefix(li, i);
    NonEmptyPrefix(li, i + 1);
    NextPart(li, i);
    var k := |NonEmpty(li[..i])|;
    assert NonEmpty(li)[k] == NonEmpty(li)[..k + 1][k] == li[i];
    forall n ensures !Leads(files, NonEmpty(li), n) {
      LeadsNowhere(files, NonEmpty(li), r, k, n);
    }
  }

  lemma SameNames(files: Files, p: Id, r: Id, a: string, b: string)
    requires Acyclic(files) && UniqueNames(files) && (r == 0 || r in files) && (p == 0 || p in files)
    requires Grounded(files, p) && Grounded(files, r) && Names(files, p) + [a] == Names(files, r) + [b]
    ensures p == r && a == b
  {
    var x, y := Names(files, p) + [a], Names(files, r) + [b];
    assert x[..|x| - 1] == Names(files, p) && y[..|y| - 1] == Names(files, r);
    assert x[|x| - 1] == a && y[|y| - 1] == b;
    if p in files && r in files {
      NamesIdentify(files, p, r);
    } else if p in files {
      ParentGrounded(files, p);
    } else if r in files {
      ParentGrounded(files, r);
    }
  }

  /** The ancestor of n whose names are the first d names of n. */
  lemma {:induction false} AncestorAt(files: Files, n: Id, d: nat) returns (m: Id)
    requires Acyclic(files) && n in files && 0 < d <= |Names(files, n)|
    ensures m in files && Below(files, n, m) && Names(files, m) == Names(files, n)[..d]
    decreases Depth(files, n)
  {
    ParentGrounded(files, n);
    var p := files[n].parentId;
    assert Names(files, n) == Names(files, p) + [files[n].name];
    if d == |Names(files, n)| {
      BelowItself(files, n);
      return n;
    }
    m := AncestorAt(files, p, d);
    BelowParent(files, n);
    BelowTransitive(files, n, p, m);
    assert Names(files, n)[..d] == Names(files, p)[..d];
  }

  /** documentId undoes documentUrl exactly when the entry is not too deep. */
  method UrlRoundTrip(db: DocumentUrlDB, id: Id) returns (r: Id)
    requires Forest(db.idTree, db.idFilename) && ProperNames(db.idFilename) && UniqueNames(db.idFilename) &&
      id in db.idFilename
    ensures r == id <==> Depth(db.idFilename, id) <= DEPTH_LIMIT + 1
    ensures r != id ==> r == 0
  {
    var url := db.Get(id);
    r := db.DocumentId(url);
    LookedUp(db.idFilename, Components(url), r);
    UrlComponents(db.idFilename, id);
    ComponentsOfEmpty();
    ParentGrounded(db.idFilename, id);
    if r != 0 {
      ParentGrounded(db.idFilename, r);
      if url != "" {
        NamesIdentify(db.idFilename, r, id);
      }
    }
  }
}
