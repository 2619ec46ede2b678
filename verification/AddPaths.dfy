/**
  The reasoning behind DocumentUrlDB::addPath, which adds a path and its missing
  ancestors from the leaf upwards: in between, the newest entry hangs from a
  parent that is not known yet.
 */
module AddPaths {
  import opened IdUtils
  import opened IdTree
  import opened Paths
  import opened Urls

  function ParentPath(s: string): string {
    var p := LastSlash(s);
    if p < 0 then "" else s[..p]
  }

  function NameOf(s: string): string {
    s[LastSlash(s) + 1..]
  }

  /** "" for the root, otherwise "/name" once per level. */
  predicate CleanPath(s: string)
    decreases |s|
  {
    s == "" || (LastSlash(s) >= 0 && NameOf(s) != "" && CleanPath(ParentPath(s)))
  }

  /** The k-th ancestor of a path. */
  ghost function Ancestor(url: string, k: nat): string {
    if k == 0 then url else ParentPath(Ancestor(url, k - 1))
  }

  lemma {:induction false} AncestorClean(url: string, k: nat)
    requires CleanPath(url)
    ensures CleanPath(Ancestor(url, k))
  {
    if k > 0 {
      AncestorClean(url, k - 1);
    }
  }

  /** Ancestors get strictly shorter until the root is reached. */
  lemma {:induction false} AncestorsShrink(url: string, i: nat, j: nat)
    requires CleanPath(url) && i < j && Ancestor(url, j - 1) != ""
    ensures |Ancestor(url, j)| < |Ancestor(url, i)|
    decreases j
  {
    AncestorClean(url, j - 1);
    if i < j - 1 {
      AncestorClean(url, j - 2);
      AncestorsShrink(url, i, j - 1);
    }
  }

  /** The id of a directory; the root has none. */
  function DirId(stat: string -> Id, path: string): Id {
    if path == "" then 0 else stat(path)
  }

  /** What the file system has at a path, as a tree entry. */
  function Entry(stat: string -> Id, path: string): FilePath {
    FilePath(DirId(stat, ParentPath(path)), NameOf(path))
  }

  /** Different paths have different ids. */
  ghost predicate Injective(stat: string -> Id) {
    forall a, b {:trigger SameFile(stat, a, b)} :: SameFile(stat, a, b) ==> a == b
  }

  ghost predicate SameFile(stat: string -> Id, a: string, b: string) {
    stat(a) == stat(b) && stat(a) != 0
  }

  ghost predicate Extends(files0: Files, files: Files) {
    forall n :: n in files0 ==> n in files && files[n] == files0[n]
  }

  /** n is one of the first k entries of the chain. */
  ghost predicate InChain(stat: string -> Id, url: string, k: nat, n: Id) {
    exists j :: 0 <= j < k && n == stat(Ancestor(url, j))
  }

  /** The first k entries of the chain from url upwards are exactly what has been added. */
  ghost predicate Chained(stat: string -> Id, files0: Files, files: Files, url: string, k: nat) {
    0 !in files && Extends(files0, files) &&
    ChainEntries(stat, files0, files, url, k) && OnlyChain(stat, files0, files, url, k)
  }

  ghost predicate ChainEntries(stat: string -> Id, files0: Files, files: Files, url: string, k: nat) {
    forall j: nat :: j < k ==> ChainEntry(stat, files0, files, url, j)
  }

  ghost predicate OnlyChain(stat: string -> Id, files0: Files, files: Files, url: string, k: nat) {
    forall n :: n in files && n !in files0 ==> InChain(stat, url, k, n)
  }

  ghost predicate ChainEntry(stat: string -> Id, files0: Files, files: Files, url: string, j: nat) {
    var q := Ancestor(url, j);
    q != "" && stat(q) != 0 && stat(q) !in files0 && stat(q) in files && files[stat(q)] == Entry(stat, q)
  }

  /** An ancestor further up is not among the entries added so far. */
  lemma NextIsNew(stat: string -> Id, files0: Files, files: Files, url: string, k: nat)
    requires Injective(stat) && CleanPath(url) && Chained(stat, files0, files, url, k)
    requires Ancestor(url, k) != "" && stat(Ancestor(url, k)) != 0
    ensures stat(Ancestor(url, k)) in files <==> stat(Ancestor(url, k)) in files0
  {
    var id := stat(Ancestor(url, k));
    if id in files && id !in files0 {
      var j :| 0 <= j < k && id == stat(Ancestor(url, j));
      assert SameFile(stat, Ancestor(url, j), Ancestor(url, k));
      AncestorNonRoot(url, k - 1, k);
      AncestorsShrink(url, j, k);
    }
  }

  lemma {:induction false} AncestorNonRoot(url: string, i: nat, k: nat)
    requires i <= k && Ancestor(url, k) != ""
    ensures Ancestor(url, i) != ""
    decreases k
  {
    if i < k {
      assert LastSlash("") == -1;
      AncestorNonRoot(url, i, k - 1);
    }
  }

  lemma InChainGrows(stat: string -> Id, url: string, k: nat, n: Id)
    ensures InChain(stat, url, k + 1, n) <==> InChain(stat, url, k, n) || n == stat(Ancestor(url, k))
  {
    if InChain(stat, url, k, n) {
      var j :| 0 <= j < k && n == stat(Ancestor(url, j));
      assert j < k + 1;
    }
  }

  /** Adding the next ancestor's entry extends the chain. */
  lemma ChainGrows(stat: string -> Id, files0: Files, files: Files, files': Files, url: string, k: nat, id: Id)
    requires Chained(stat, files0, files, url, k)
    requires Ancestor(url, k) != "" && id == stat(Ancestor(url, k)) && id != 0 && id !in files
    requires files' == files[id := Entry(stat, Ancestor(url, k))]
    ensures Chained(stat, files0, files', url, k + 1)
  {
    ChainEntryNew(stat, files0, files, files', url, k, id);
    ChainEntriesStay(stat, files0, files, files', url, k);
    OnlyChainGrows(stat, files0, files, files', url, k, id);
  }

  lemma ChainEntryStays(stat: string -> Id, files0: Files, files: Files, files': Files, url: string, j: nat)
    requires ChainEntry(stat, files0, files, url, j) && Extends(files, files')
    ensures ChainEntry(stat, files0, files', url, j)
  {
  }

  lemma ChainEntriesStay(stat: string -> Id, files0: Files, files: Files, files': Files, url: string, k: nat)
    requires ChainEntries(stat, files0, files, url, k) && Extends(files, files')
    requires ChainEntry(stat, files0, files', url, k)
    ensures ChainEntries(stat, files0, files', url, k + 1)
  {
    forall j: nat | j < k ensures ChainEntry(stat, files0, files', url, j) {
      ChainEntryStays(stat, files0, files, files', url, j);
    }
  }

  lemma OnlyChainGrows(stat: string -> Id, files0: Files, files: Files, files': Files, url: string, k: nat, id: Id)
    requires OnlyChain(stat, files0, files, url, k) && id == stat(Ancestor(url, k))
    requires forall n :: n in files' ==> n in files || n == id
    ensures OnlyChain(stat, files0, files', url, k + 1)
  {
    forall n | n in files' && n !in files0 ensures InChain(stat, url, k + 1, n) {
      InChainGrows(stat, url, k, n);
    }
  }

  lemma ChainEntryNew(stat: string -> Id, files0: Files, files: Files, files': Files, url: string, k: nat, id: Id)
    requires Ancestor(url, k) != "" && id == stat(Ancestor(url, k)) && id != 0 && id !in files && Extends(files0, files)
    requires files' == files[id := Entry(stat, Ancestor(url, k))]
    ensures ChainEntry(stat, files0, files', url, k)
  {
    assert id !in files0;
  }

  /** The chain has reached something known: the root, or an entry that was there before. */
  ghost predicate Anchored(stat: string -> Id, files0: Files, url: string, k: nat) {
    Ancestor(url, k) == "" || stat(Ancestor(url, k)) in files0
  }

  /** Entries that were there before keep their ancestors. */
  lemma OldGrounded(files0: Files, files: Files, n: Id)
    requires Acyclic(files0) && 0 !in files && Extends(files0, files) && (n in files0 || n == 0)
    ensures Grounded(files0, n) && Grounded(files, n) && Url(files, n) == Url(files0, n)
  {
    if n == 0 {
      assert Up(files0, 0, 0) == 0 && Up(files, 0, 0) == 0;
    } else {
      forall m | Below(files0, n, m) ensures m in files0 || m == 0 {
        var k: nat :| Up(files0, n, k) == m;
        UpStaysKnown(files0, n, k);
      }
      SameAbove(files0, files, n);
    }
  }

  lemma {:induction false} UpStaysKnown(files: Files, n: Id, k: nat)
    requires Acyclic(files) && (n in files || n == 0)
    ensures Up(files, n, k) in files || Up(files, n, k) == 0
    decreases k
  {
    if k > 0 && n in files {
      UpStaysKnown(files, files[n].parentId, k - 1);
    }
  }

  lemma {:induction false} ChainGrounded(stat: string -> Id, files0: Files, files: Files, url: string, k: nat, j: nat)
    requires Acyclic(files0) && Chained(stat, files0, files, url, k) && Anchored(stat, files0, url, k) && j <= k
    ensures Grounded(files, DirId(stat, Ancestor(url, j)))
    decreases k - j
  {
    var n := DirId(stat, Ancestor(url, j));
    if j == k {
      OldGrounded(files0, files, n);
    } else {
      assert ChainEntry(stat, files0, files, url, j);
      ChainGrounded(stat, files0, files, url, k, j + 1);
      var m: nat :| Up(files, files[n].parentId, m) == 0;
      assert Up(files, n, m + 1) == 0;
    }
  }

  /** An anchored chain leaves a forest. */
  lemma AnchoredAcyclic(stat: string -> Id, files0: Files, files: Files, url: string, k: nat)
    requires Acyclic(files0) && Chained(stat, files0, files, url, k) && Anchored(stat, files0, url, k)
    ensures Acyclic(files)
  {
    forall n | n in files
      ensures Grounded(files, n) && (files[n].parentId == 0 || files[n].parentId in files)
    {
      if n in files0 {
        OldGrounded(files0, files, n);
      } else {
        var j :| 0 <= j < k && n == stat(Ancestor(url, j));
        assert ChainEntry(stat, files0, files, url, j);
        ChainGrounded(stat, files0, files, url, k, j);
        assert j + 1 < k ==> ChainEntry(stat, files0, files, url, j + 1);
      }
    }
  }

  /** A chain whose next ancestor is missing leaves an entry without a parent. */
  lemma DanglingNotAcyclic(stat: string -> Id, files0: Files, files: Files, url: string, k: nat)
    requires Chained(stat, files0, files, url, k) && k > 0
    requires Ancestor(url, k) != "" && stat(Ancestor(url, k)) != 0 && stat(Ancestor(url, k)) !in files
    ensures !Acyclic(files)
  {
    assert ChainEntry(stat, files0, files, url, k - 1);
  }

  /** Every known entry has the path that the file system has for its id. */
  ghost predicate Agrees(stat: string -> Id, files: Files)
    requires Acyclic(files)
  {
    forall n {:trigger AgreesAt(stat, files, n)} :: n in files ==> AgreesAt(stat, files, n)
  }

  ghost predicate AgreesAt(stat: string -> Id, files: Files, n: Id)
    requires Acyclic(files) && n in files
  {
    CleanPath(Url(files, n)) && Url(files, n) != "" && stat(Url(files, n)) == n
  }

  lemma PathParts(path: string)
    requires CleanPath(path) && path != ""
    ensures path == ParentPath(path) + "/" + NameOf(path)
  {
  }

  /** Along the chain the stored path of each entry is the path it was found at. */
  lemma {:induction false} ChainUrls(stat: string -> Id, files0: Files, files: Files, url: string, k: nat, j: nat)
    requires CleanPath(url) && Acyclic(files0) && Agrees(stat, files0) && Injective(stat) && 0 !in files
    requires Chained(stat, files0, files, url, k) && Anchored(stat, files0, url, k) && j <= k
    ensures Grounded(files, DirId(stat, Ancestor(url, j)))
    ensures Url(files, DirId(stat, Ancestor(url, j))) == Ancestor(url, j)
    decreases k - j
  {
    ChainGrounded(stat, files0, files, url, k, j);
    if j == k {
      AnchorUrl(stat, files0, files, Ancestor(url, k));
    } else {
      assert ChainEntry(stat, files0, files, url, j);
      ChainUrls(stat, files0, files, url, k, j + 1);
      AncestorClean(url, j);
      EntryUrl(stat, files, Ancestor(url, j));
    }
  }

  lemma AnchorUrl(stat: string -> Id, files0: Files, files: Files, path: string)
    requires Acyclic(files0) && Agrees(stat, files0) && Injective(stat) && 0 !in files && Extends(files0, files)
    requires path == "" || stat(path) in files0
    ensures Grounded(files, DirId(stat, path)) && Url(files, DirId(stat, path)) == path
  {
    OldGrounded(files0, files, DirId(stat, path));
    if path != "" {
      assert AgreesAt(stat, files0, stat(path));
      assert SameFile(stat, path, Url(files0, stat(path)));
    }
  }

  lemma EntryUrl(stat: string -> Id, files: Files, path: string)
    requires 0 !in files && CleanPath(path) && path != "" && stat(path) in files &&
      files[stat(path)] == Entry(stat, path)
    requires Grounded(files, stat(path)) && Grounded(files, DirId(stat, ParentPath(path)))
    requires Url(files, DirId(stat, ParentPath(path))) == ParentPath(path)
    ensures Url(files, stat(path)) == path
  {
    ParentGrounded(files, stat(path));
    PathParts(path);
  }

  /** If the tree agreed with the file system before, it does afterwards. */
  lemma ChainAgrees(stat: string -> Id, files0: Files, files: Files, url: string, k: nat)
    requires Injective(stat) && CleanPath(url) && Acyclic(files0) && Agrees(stat, files0)
    requires Chained(stat, files0, files, url, k) && Anchored(stat, files0, url, k)
    ensures Acyclic(files) && Agrees(stat, files)
    ensures Grounded(files, DirId(stat, url)) && Url(files, DirId(stat, url)) == url
  {
    AnchoredAcyclic(stat, files0, files, url, k);
    ChainUrls(stat, files0, files, url, k, 0);
    forall n | n in files
      ensures AgreesAt(stat, files, n)
    {
      if n in files0 {
        assert AgreesAt(stat, files0, n);
        OldGrounded(files0, files, n);
      } else {
        var j :| 0 <= j < k && n == stat(Ancestor(url, j));
        assert ChainEntry(stat, files0, files, url, j);
        ChainUrls(stat, files0, files, url, k, j);
        AncestorClean(url, j);
      }
    }
  }

  /** n is the id of url or of one of its ancestors, and is entered as what it is there. */
  ghost predicate OnPath(stat: string -> Id, files: Files, url: string, n: Id) {
    exists k: nat :: EnteredAs(stat, files, Ancestor(url, k), n)
  }

  ghost predicate EnteredAs(stat: string -> Id, files: Files, path: string, n: Id) {
    path != "" && n == stat(path) && n in files && files[n] == Entry(stat, path)
  }

  /** All entries that are not in files0 are on the path. */
  ghost predicate AddedOnPath(stat: string -> Id, files0: Files, files: Files, url: string) {
    forall n {:trigger OnPath(stat, files, url, n)} :: n in files && n !in files0 ==> OnPath(stat, files, url, n)
  }

  lemma ChainOnPath(stat: string -> Id, files0: Files, files: Files, url: string, k: nat)
    requires Chained(stat, files0, files, url, k)
    ensures AddedOnPath(stat, files0, files, url)
  {
    forall n | n in files && n !in files0 ensures OnPath(stat, files, url, n) {
      var j: nat :| j < k && n == stat(Ancestor(url, j));
      assert ChainEntry(stat, files0, files, url, j);
      assert EnteredAs(stat, files, Ancestor(url, j), n);
    }
  }

  /** The entries added for a clean path have proper names. */
  lemma AddedNames(stat: string -> Id, files0: Files, files: Files, url: string)
    requires CleanPath(url) && Extends(files0, files) && AddedOnPath(stat, files0, files, url) && ProperNames(files0)
    ensures ProperNames(files)
  {
    forall n | n in files && n !in files0 ensures IsName(files[n].name) {
      assert OnPath(stat, files, url, n);
      var k: nat :| EnteredAs(stat, files, Ancestor(url, k), n);
      AncestorClean(url, k);
    }
  }

  /** What addPath has achieved when it succeeds. */
  ghost predicate PathKnown(stat: string -> Id, files0: Files, files: Files, url: string)
    requires Acyclic(files0)
  {
    Acyclic(files) && stat(url) in files &&
    (Agrees(stat, files0) ==> Agrees(stat, files) && Url(files, stat(url)) == url)
  }

  /** The file system has the path and the directories above it, as far up as something that is known. */
  predicate Reaches(stat: string -> Id, files: Files, path: string)
    decreases |path|
  {
    path == "" || (stat(path) != 0 && (stat(path) in files || Reaches(stat, files, ParentPath(path))))
  }

  /**
    What addPath leaves behind.  It succeeds exactly if the path reaches something known,
    and then leaves a forest that knows the path; otherwise only if nothing was added.
   */
  ghost predicate Settled(stat: string -> Id, files0: Files, files: Files, url: string, ok: bool)
    requires Acyclic(files0)
  {
    Extends(files0, files) && AddedOnPath(stat, files0, files, url) &&
    (ok ==> PathKnown(stat, files0, files, url)) &&
    (ok <==> Reaches(stat, files0, url)) &&
    (Acyclic(files) <==> Reaches(stat, files0, url) || files == files0)
  }

  lemma ChainEnds(stat: string -> Id, files0: Files, files: Files, url: string, k: nat)
    requires Acyclic(files0) && Injective(stat) && CleanPath(url) && url != ""
    requires Chained(stat, files0, files, url, k) && Anchored(stat, files0, url, k) && stat(url) in files
    ensures PathKnown(stat, files0, files, url)
  {
    AnchoredAcyclic(stat, files0, files, url, k);
    if Agrees(stat, files0) {
      ChainAgrees(stat, files0, files, url, k);
    }
  }

  /** addPath has added k entries and is at arr, whose id is not known yet. */
  ghost predicate Climbing(stat: string -> Id, files0: Files, files: Files, url: string, arr: string, id: Id, k: nat) {
    arr == Ancestor(url, k) && arr != "" && CleanPath(arr) && id == stat(arr) &&
    Chained(stat, files0, files, url, k) && (if k == 0 then files == files0 else id != 0 && stat(url) in files) &&
    (Reaches(stat, files0, url) <==> Reaches(stat, files0, arr))
  }

  lemma ClimbStarts(stat: string -> Id, files0: Files, url: string)
    requires Acyclic(files0) && CleanPath(url) && url != ""
    ensures Climbing(stat, files0, files0, url, url, stat(url), 0)
  {
  }

  lemma ClimbEnds(stat: string -> Id, files0: Files, files: Files, url: string, arr: string, id: Id, k: nat)
    requires Acyclic(files0) && Injective(stat) && CleanPath(url) && url != ""
    requires Climbing(stat, files0, files, url, arr, id, k) && id != 0 && id in files
    ensures Settled(stat, files0, files, url, true)
  {
    NextIsNew(stat, files0, files, url, k);
    ChainSettled(stat, files0, files, url, k);
  }

  /** The entry of arr is added, and its directory comes next. */
  lemma ClimbOn(stat: string -> Id, files0: Files, files: Files, files': Files, url: string, arr: string, id: Id,
                k: nat)
    requires Acyclic(files0) && Injective(stat) && CleanPath(url) && url != ""
    requires Climbing(stat, files0, files, url, arr, id, k) && id != 0 && id !in files
    requires files' == files[id := Entry(stat, arr)]
    requires ParentPath(arr) != "" && stat(ParentPath(arr)) != 0
    ensures Climbing(stat, files0, files', url, ParentPath(arr), stat(ParentPath(arr)), k + 1)
  {
    ChainGrows(stat, files0, files, files', url, k, id);
    ChainStart(stat, files0, files', url, k + 1);
    assert id !in files0;
  }

  /** The entry of arr is added, and the root is reached. */
  lemma LastEntry(stat: string -> Id, files0: Files, files: Files, files': Files, url: string, arr: string,
                  id: Id, k: nat)
    requires Acyclic(files0) && Climbing(stat, files0, files, url, arr, id, k) && id != 0 && id !in files
    requires files' == files[id := Entry(stat, arr)] && ParentPath(arr) == ""
    ensures Chained(stat, files0, files', url, k + 1) && Anchored(stat, files0, url, k + 1)
    ensures stat(url) in files' && Reaches(stat, files0, url)
  {
    TopReaches(stat, files0, url, arr, k);
    ChainGrows(stat, files0, files, files', url, k, id);
    ChainStart(stat, files0, files', url, k + 1);
  }

  lemma TopReaches(stat: string -> Id, files0: Files, url: string, arr: string, k: nat)
    requires arr == Ancestor(url, k) && arr != "" && ParentPath(arr) == "" && stat(arr) != 0
    ensures Reaches(stat, files0, arr) && Anchored(stat, files0, url, k + 1)
  {
  }

  lemma ChainStart(stat: string -> Id, files0: Files, files: Files, url: string, k: nat)
    requires Chained(stat, files0, files, url, k) && k > 0
    ensures stat(url) in files
  {
    assert ChainEntry(stat, files0, files, url, 0);
  }

  /** A chain that has reached the root or something known. */
  lemma ChainSettled(stat: string -> Id, files0: Files, files: Files, url: string, k: nat)
    requires Acyclic(files0) && Injective(stat) && CleanPath(url) && url != ""
    requires Chained(stat, files0, files, url, k) && Anchored(stat, files0, url, k) && stat(url) in files
    requires Reaches(stat, files0, url)
    ensures Settled(stat, files0, files, url, true)
  {
    ChainEnds(stat, files0, files, url, k);
    ChainOnPath(stat, files0, files, url, k);
  }

  /** The parent of arr cannot be found: whatever was added hangs from an unknown entry. */
  lemma ClimbFails(stat: string -> Id, files0: Files, files: Files, url: string, arr: string, id: Id, k: nat)
    requires Acyclic(files0) && Climbing(stat, files0, files, url, arr, id, k) && id !in files
    requires id == 0 || (ParentPath(arr) != "" && stat(ParentPath(arr)) == 0)
    ensures Settled(stat, files0, files, url, false)
  {
    assert id !in files0 && !Reaches(stat, files0, arr);
    if k > 0 {
      DanglingNotAcyclic(stat, files0, files, url, k);
    }
    ChainOnPath(stat, files0, files, url, k);
  }
}
