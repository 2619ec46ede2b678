/**
  What adding, moving and deleting an entry does to the two tree tables
  (src/engine/documenturldb.cpp), and exactly when the forest survives it.
 */
module TreeUpdates {
  import opened IdUtils
  import opened IdTree
  import opened Urls

  /** Insert id into the child list of a parent. */
  function AddChild(children: Children, parent: Id, id: Id): Children {
    SetChildren(children, parent, SortedIdInsert(GetChildren(children, parent), id, IdOf))
  }

  /** QVector::removeOne on the child list of a parent, stored back only if it removed something. */
  function RemoveChild(children: Children, parent: Id, id: Id): Children {
    var subDocs := GetChildren(children, parent);
    if IndexOf(subDocs, IdOf, id) < |subDocs| then
      SetChildren(children, parent, SortedIdRemove(subDocs, id, IdOf))
    else children
  }

  ghost predicate Tidy(children: Children) {
    forall q :: q in children ==> children[q] != [] && Ascending(children[q], IdOf)
  }

  /** children' is children with id listed under parent. */
  ghost predicate Added(children: Children, children': Children, parent: Id, id: Id) {
    Tidy(children') &&
    forall q, x :: x in GetChildren(children', q) <==> x in GetChildren(children, q) || (q == parent && x == id)
  }

  lemma AddChildEffect(children: Children, parent: Id, id: Id)
    requires Tidy(children)
    ensures Added(children, AddChild(children, parent, id), parent, id)
  {
    var subDocs := GetChildren(children, parent);
    InsertIsSetInsert(subDocs, id, IdOf);
    HasIdIsMember(subDocs, id);
    assert id in SortedIdInsert(subDocs, id, IdOf);
  }

  lemma RemoveChildEffect(children: Children, parent: Id, id: Id)
    requires Tidy(children)
    ensures Tidy(RemoveChild(children, parent, id))
    ensures forall q, x :: x in GetChildren(RemoveChild(children, parent, id), q) <==>
      x in GetChildren(children, q) && !(q == parent && x == id)
  {
    var subDocs := GetChildren(children, parent);
    RemoveIsSetRemove(subDocs, id, IdOf);
    HasIdIsMember(subDocs, id);
    assert IndexOf(subDocs, IdOf, id) == |subDocs| ==> id !in subDocs;
  }

  lemma HasIdIsMember(list: seq<Id>, id: Id)
    ensures HasKey(list, IdOf, id) <==> id in list
  {
  }

  /** add() keeps the tables inverse exactly when it does not silently give a known id a second parent. */
  lemma AddMirror(children: Children, files: Files, id: Id, parent: Id, name: string)
    requires Mirror(children, files)
    ensures Mirror(AddChild(children, parent, id), files[id := FilePath(parent, name)]) <==>
      (id !in files || files[id].parentId == parent)
  {
    AddChildEffect(children, parent, id);
    if id in files && files[id].parentId != parent {
      SecondParent(children, AddChild(children, parent, id), files, id, parent, name);
    } else {
      AddKeepsMirror(children, AddChild(children, parent, id), files, id, parent, name);
    }
  }

  lemma AddKeepsMirror(children: Children, children': Children, files: Files, id: Id, parent: Id, name: string)
    requires Mirror(children, files) && Added(children, children', parent, id)
    requires id !in files || files[id].parentId == parent
    ensures Mirror(children', files[id := FilePath(parent, name)])
  {
    var files' := files[id := FilePath(parent, name)];
    forall q, x ensures x in GetChildren(children', q) <==> x in files' && files'[x].parentId == q {
      assert x in GetChildren(children, q) <==> x in files && files[x].parentId == q;
    }
  }

  lemma SecondParent(children: Children, children': Children, files: Files, id: Id, parent: Id, name: string)
    requires Mirror(children, files) && Added(children, children', parent, id)
    requires id in files && files[id].parentId != parent
    ensures !Mirror(children', files[id := FilePath(parent, name)])
  {
    var files', q := files[id := FilePath(parent, name)], files[id].parentId;
    assert id in GetChildren(children, q);
    assert id in GetChildren(children', q) && !(id in files' && files'[id].parentId == q);
  }

  /** Away from id the two tables agree. */
  ghost predicate SameBut(files: Files, files': Files, id: Id) {
    forall n :: n != id ==> (n in files <==> n in files') && (n in files ==> files'[n] == files[n])
  }

  /** The climb from n is the same until it reaches id. */
  lemma {:induction false} UpUnaffected(files: Files, files': Files, id: Id, n: Id, k: nat)
    requires SameBut(files, files', id) && forall j :: 0 <= j < k ==> Up(files, n, j) != id
    ensures Up(files', n, k) == Up(files, n, k)
    decreases k
  {
    if k > 0 {
      assert Up(files, n, 0) == n;
      if n in files {
        forall j | 0 <= j < k - 1 ensures Up(files, files[n].parentId, j) != id {
          assert Up(files, n, j + 1) == Up(files, files[n].parentId, j);
        }
        UpUnaffected(files, files', id, files[n].parentId, k - 1);
      }
    }
  }

  /** Entries not below id are grounded as before. */
  lemma GroundedElsewhere(files: Files, files': Files, id: Id, n: Id)
    requires SameBut(files, files', id) && Grounded(files, n) && !Below(files, n, id)
    ensures Grounded(files', n) && Depth(files', n) == Depth(files, n)
  {
    forall k: nat ensures Up(files', n, k) == Up(files, n, k) {
      UpUnaffected(files, files', id, n, k);
    }
    var k := Depth(files, n);
    assert Up(files', n, k) == 0;
    var k' := Depth(files', n);
    assert Up(files, n, k') == 0;
    assert k <= k' && k' <= k;
  }

  /** The distance from n up to id, when n is below it. */
  ghost function Distance(files: Files, n: Id, id: Id): (k: nat)
    requires Below(files, n, id)
    ensures Up(files, n, k) == id && forall j :: 0 <= j < k ==> Up(files, n, j) != id
  {
    var k: nat :| Up(files, n, k) == id;
    LeastUp(files, n, id, 0, k)
  }

  ghost function LeastUp(files: Files, n: Id, id: Id, from: nat, k: nat): (r: nat)
    requires from <= k && Up(files, n, k) == id
    ensures from <= r <= k && Up(files, n, r) == id && forall j :: from <= j < r ==> Up(files, n, j) != id
    decreases k - from
  {
    if Up(files, n, from) == id then from else LeastUp(files, n, id, from + 1, k)
  }

  /** The new parent exists and is not inside the moved tree. */
  ghost predicate MayMove(files: Files, id: Id, parent: Id) {
    parent == 0 || (parent in files && !Below(files, parent, id))
  }

  /**
    Moving id under a parent keeps the forest acyclic exactly when that parent exists and is
    not inside the moved tree.
   */
  lemma MoveAcyclic(files: Files, id: Id, parent: Id, name: string)
    requires Acyclic(files) && id in files
    ensures Acyclic(files[id := FilePath(parent, name)]) <==> MayMove(files, id, parent)
  {
    var files' := files[id := FilePath(parent, name)];
    if parent == 0 || (parent in files && !Below(files, parent, id)) {
      MoveGroundsParent(files, files', id, parent);
      forall n | n in files' ensures Grounded(files', n) {
        MoveGrounds(files, files', id, n);
      }
      assert Acyclic(files');
    } else if parent in files {
      MoveCycle(files, files', id, parent);
    }
  }

  lemma MoveGroundsParent(files: Files, files': Files, id: Id, parent: Id)
    requires Acyclic(files) && id in files && id in files' && files'[id].parentId == parent &&
      SameBut(files, files', id)
    requires parent == 0 || (parent in files && !Below(files, parent, id))
    ensures Grounded(files', id)
  {
    if parent == 0 {
      assert Up(files', parent, 0) == 0;
    } else {
      GroundedElsewhere(files, files', id, parent);
    }
    var k: nat :| Up(files', parent, k) == 0;
    assert Up(files', id, k + 1) == 0;
  }

  lemma MoveGrounds(files: Files, files': Files, id: Id, n: Id)
    requires Acyclic(files) && 0 !in files' && n in files && SameBut(files, files', id) && Grounded(files', id)
    ensures Grounded(files', n)
  {
    if Below(files, n, id) {
      var k := Distance(files, n, id);
      UpUnaffected(files, files', id, n, k);
      var j: nat :| Up(files', id, j) == 0;
      UpAdds(files', n, k, j);
    } else {
      GroundedElsewhere(files, files', id, n);
    }
  }

  lemma MoveCycle(files: Files, files': Files, id: Id, parent: Id)
    requires Acyclic(files) && id in files' && files'[id].parentId == parent && SameBut(files, files', id)
    requires id != 0 && Below(files, parent, id)
    ensures !Acyclic(files')
  {
    var k := Distance(files, parent, id);
    UpUnaffected(files, files', id, parent, k);
    assert Up(files', id, k + 1) == id;
    if Acyclic(files') {
      assert Grounded(files', id);
      var g: nat :| Up(files', id, g) == 0;
      NoCycle(files', id, k + 1, g);
    }
  }

  /** updateUrl's effect on the child lists. */
  function MoveChild(children: Children, files: Files, id: Id, parent: Id): Children {
    var from := if id in files then files[id].parentId else 0;
    if from != parent then AddChild(RemoveChild(children, from, id), parent, id) else children
  }

  /** updateUrl keeps the tables inverse, except that an unknown id put at the top level is not listed there. */
  lemma MoveMirror(children: Children, files: Files, id: Id, parent: Id, name: string)
    requires Mirror(children, files)
    ensures Mirror(MoveChild(children, files, id, parent), files[id := FilePath(parent, name)]) <==>
      (id in files || parent != 0)
  {
    var from := if id in files then files[id].parentId else 0;
    var files' := files[id := FilePath(parent, name)];
    var children' := MoveChild(children, files, id, parent);
    if from != parent {
      RemoveChildEffect(children, from, id);
      AddChildEffect(RemoveChild(children, from, id), parent, id);
      forall q, x ensures x in GetChildren(children', q) <==> x in files' && files'[x].parentId == q {
        assert x in GetChildren(children, q) <==> x in files && files[x].parentId == q;
      }
    } else if id !in files {
      assert id !in GetChildren(children, 0);
      assert id in files' && files'[id].parentId == 0;
    }
  }

  /** del() on a known entry: the tables stay inverse, and the forest survives exactly when the entry is a leaf. */
  lemma DelForest(children: Children, files: Files, id: Id)
    requires Forest(children, files) && id in files
    ensures Mirror(RemoveChild(children, files[id].parentId, id), files - {id})
    ensures Forest(RemoveChild(children, files[id].parentId, id), files - {id}) <==> GetChildren(children, id) == []
  {
    DelMirror(children, files, id);
    if GetChildren(children, id) == [] {
      LeafRemoval(children, files, id);
    } else {
      Orphans(children, files, id, GetChildren(children, id)[0]);
    }
  }

  lemma DelMirror(children: Children, files: Files, id: Id)
    requires Mirror(children, files) && id in files
    ensures Mirror(RemoveChild(children, files[id].parentId, id), files - {id})
  {
    var files', children' := files - {id}, RemoveChild(children, files[id].parentId, id);
    RemoveChildEffect(children, files[id].parentId, id);
    forall q, x ensures x in GetChildren(children', q) <==> x in files' && files'[x].parentId == q {
      assert x in GetChildren(children, q) <==> x in files && files[x].parentId == q;
    }
  }

  lemma Orphans(children: Children, files: Files, id: Id, c: Id)
    requires Forest(children, files) && id in files && c in GetChildren(children, id)
    ensures !Acyclic(files - {id})
  {
    assert c in files && files[c].parentId == id;
    ParentNotBelow(files, c);
    BelowItself(files, c);
    var files' := files - {id};
    assert c in files' && files'[c].parentId == id && id !in files';
  }

  lemma LeafRemoval(children: Children, files: Files, id: Id)
    requires Forest(children, files) && id in files && GetChildren(children, id) == []
    ensures Acyclic(files - {id})
  {
    assert Mirror(children, files);
    forall n | n in files ensures files[n].parentId != id {
      assert n in GetChildren(children, files[n].parentId);
    }
    RemovalKeepsUp(files, {id});
  }

  /** A set of entries that contains every entry whose parent it contains. */
  ghost predicate DownClosed(files: Files, gone: set<Id>) {
    forall n :: n in files && files[n].parentId in gone ==> n in gone
  }

  lemma {:induction false} UpAfterRemoval(files: Files, gone: set<Id>, n: Id, k: nat)
    requires 0 !in gone && DownClosed(files, gone) && n !in gone
    ensures Up(files - gone, n, k) == Up(files, n, k) && Up(files, n, k) !in gone
    decreases k
  {
    if k > 0 && n in files {
      UpAfterRemoval(files, gone, files[n].parentId, k - 1);
    }
  }

  /** Removing whole subtrees leaves every other entry with the same ancestors. */
  lemma RemovalKeepsUp(files: Files, gone: set<Id>)
    requires 0 !in gone && DownClosed(files, gone)
    ensures forall n, k: nat :: n !in gone ==> Up(files - gone, n, k) == Up(files, n, k)
    ensures forall n, p :: n !in gone ==> (Below(files - gone, n, p) <==> Below(files, n, p))
    ensures Acyclic(files) ==> Acyclic(files - gone)
  {
    var files' := files - gone;
    forall n, k: nat | n !in gone ensures Up(files', n, k) == Up(files, n, k) {
      UpAfterRemoval(files, gone, n, k);
    }
    if Acyclic(files) {
      forall n | n in files' ensures Grounded(files', n) {
        assert Grounded(files, n);
        var k: nat :| Up(files, n, k) == 0;
        assert Up(files', n, k) == 0;
      }
    }
  }
}
