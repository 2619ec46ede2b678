/**
  Which folders are indexed (src/file/fileindexerconfig.cpp): the configured folders are
  kept longest path first and simplified, so that the first entry that a path starts
  with decides.
 */
module FolderCaches {
  import opened Sequences
  import opened Paths

  datatype FolderConfig = FolderConfig(path: string, isIncluded: bool)

  /** QString's operator<. */
  predicate StringLess(a: string, b: string) {
    b != [] && (a == [] || a[0] < b[0] || (a[0] == b[0] && StringLess(a[1..], b[1..])))
  }

  lemma {:induction false} StringOrder(a: string, b: string)
    ensures !(StringLess(a, b) && StringLess(b, a))
    ensures a == b || StringLess(a, b) || StringLess(b, a)
    ensures a == b ==> !StringLess(a, b)
  {
    if a != [] && b != [] {
      StringOrder(a[1..], b[1..]);
      assert a == [a[0]] + a[1..] && b == [b[0]] + b[1..];
    }
  }

  lemma {:induction false} StringTransitive(a: string, b: string, c: string)
    requires StringLess(a, b) && StringLess(b, c)
    ensures StringLess(a, c)
  {
    if a != [] && a[0] == b[0] == c[0] {
      StringTransitive(a[1..], b[1..], c[1..]);
    }
  }

  /** FolderConfig::operator<: longer paths first, then lexicographically. */
  predicate Less(a: string, b: string) {
    |a| > |b| || (|a| == |b| && StringLess(a, b))
  }

  lemma LessOrder(a: string, b: string)
    ensures !(Less(a, b) && Less(b, a)) && (a == b || Less(a, b) || Less(b, a)) && (a == b ==> !Less(a, b))
  {
    StringOrder(a, b);
  }

  lemma LessTransitive(a: string, b: string, c: string)
    requires Less(a, b) && Less(b, c)
    ensures Less(a, c)
  {
    if |a| == |b| == |c| {
      StringTransitive(a, b, c);
    }
  }

  ghost predicate Sorted(entries: seq<FolderConfig>) {
    forall i, j :: 0 <= i < j < |entries| ==> Less(entries[i].path, entries[j].path)
  }

  /** The first entry from an index on that the path starts with. */
  function First(entries: seq<FolderConfig>, p: string, from: nat): (k: nat)
    requires from <= |entries|
    ensures from <= k <= |entries| && forall i :: from <= i < k ==> !StartsWith(p, entries[i].path)
    ensures k < |entries| ==> StartsWith(p, entries[k].path)
    decreases |entries| - from
  {
    if from == |entries| || StartsWith(p, entries[from].path) then from else First(entries, p, from + 1)
  }

  lemma FirstIs(entries: seq<FolderConfig>, p: string, from: nat, k: nat)
    requires from <= k <= |entries| && forall i :: from <= i < k ==> !StartsWith(p, entries[i].path)
    requires k < |entries| ==> StartsWith(p, entries[k].path)
    ensures First(entries, p, from) == k
  {
  }

  /** What folderInFolderList says of a path. */
  datatype Verdict = NotIncluded | Included(folder: string)

  function VerdictOn(entries: seq<FolderConfig>, p: string): Verdict {
    var k := First(entries, p, 0);
    if k < |entries| && entries[k].isIncluded then Included(entries[k].path) else NotIncluded
  }

  lemma EraseSorted(entries: seq<FolderConfig>, i: nat)
    requires Sorted(entries) && i < |entries|
    ensures Sorted(WithoutAt(entries, i))
  {
  }

  /** An excluded entry, which the next entry it starts with excludes anyhow, or no entry includes. */
  predicate Redundant(entries: seq<FolderConfig>, i: nat)
    requires i < |entries|
  {
    !entries[i].isIncluded &&
    var j := First(entries, entries[i].path, i + 1);
    j == |entries| || !entries[j].isIncluded
  }

  /** Two prefixes of one string: the shorter is a prefix of the longer. */
  lemma PrefixesNest(a: string, b: string, p: string)
    requires StartsWith(p, a) && StartsWith(p, b) && |a| <= |b|
    ensures StartsWith(b, a) && (|a| == |b| ==> a == b)
  {
    assert a == p[..|a|] && b == p[..|b|];
  }

  /** Removing a redundant entry changes no verdict. */
  lemma EraseKeepsVerdict(entries: seq<FolderConfig>, i: nat, p: string)
    requires Sorted(entries) && i < |entries| && Redundant(entries, i)
    ensures VerdictOn(WithoutAt(entries, i), p) == VerdictOn(entries, p)
  {
    var k := First(entries, p, 0);
    if k == i {
      NextMatch(entries, i, p);
      FirstAfterErase(entries, i, p, First(entries, entries[i].path, i + 1));
    } else {
      FirstAfterErase(entries, i, p, k);
    }
  }

  /** The first match other than the erased entry is still the first match. */
  lemma FirstAfterErase(entries: seq<FolderConfig>, i: nat, p: string, k: nat)
    requires i < |entries| && k <= |entries| && k != i
    requires forall m :: 0 <= m < k && m != i ==> !StartsWith(p, entries[m].path)
    requires k < |entries| ==> StartsWith(p, entries[k].path)
    ensures VerdictOn(WithoutAt(entries, i), p) ==
      if k < |entries| && entries[k].isIncluded then Included(entries[k].path) else NotIncluded
  {
    ErasedAt(entries, i);
    FirstIs(WithoutAt(entries, i), p, 0, if k < i then k else k - 1);
  }

  lemma ErasedAt(entries: seq<FolderConfig>, i: nat)
    requires i < |entries|
    ensures |WithoutAt(entries, i)| == |entries| - 1
    ensures forall k :: 0 <= k < i ==> WithoutAt(entries, i)[k] == entries[k]
    ensures forall k {:trigger entries[k]} :: i < k < |entries| ==> WithoutAt(entries, i)[k - 1] == entries[k]
    ensures forall k {:trigger WithoutAt(entries, i)[k]} ::
      i <= k < |entries| - 1 ==> WithoutAt(entries, i)[k] == entries[k + 1]
  {
  }

  /** After a match, the next entry that the path starts with is the next that the matched entry starts with. */
  lemma NextMatch(entries: seq<FolderConfig>, i: nat, p: string)
    requires Sorted(entries) && i < |entries| && StartsWith(p, entries[i].path)
    ensures var j := First(entries, entries[i].path, i + 1);
      (forall m :: i < m < j ==> !StartsWith(p, entries[m].path)) && (j < |entries| ==> StartsWith(p, entries[j].path))
  {
    var j := First(entries, entries[i].path, i + 1);
    forall m | i < m < j ensures !StartsWith(p, entries[m].path) {
      if StartsWith(p, entries[m].path) {
        assert Less(entries[i].path, entries[m].path);
        PrefixesNest(entries[m].path, entries[i].path, p);
      }
    }
  }

  /** No entry among the first n is redundant. */
  ghost predicate Simplified(entries: seq<FolderConfig>, n: nat) {
    n <= |entries| && forall i :: 0 <= i < n ==> !Redundant(entries, i)
  }

  /** Later removals of excluded entries do not make an earlier entry redundant. */
  lemma EraseKeepsSimplified(entries: seq<FolderConfig>, i: nat)
    requires Sorted(entries) && i < |entries| && Simplified(entries, i) && !entries[i].isIncluded
    ensures Simplified(WithoutAt(entries, i), i)
  {
    var rest := WithoutAt(entries, i);
    forall k | 0 <= k < i ensures !Redundant(rest, k) {
      assert !Redundant(entries, k);
      if !entries[k].isIncluded {
        var j := First(entries, entries[k].path, k + 1);
        assert j != i;
        FirstIs(rest, entries[k].path, k + 1, if j < i then j else j - 1);
      }
    }
  }

  /** The configured folders, before anything is simplified away. */
  type Config = map<string, bool>

  ghost predicate Holds(entries: seq<FolderConfig>, config: Config) {
    forall path, included :: FolderConfig(path, included) in entries <==> path in config && config[path] == included
  }

  ghost predicate IsLongest(config: Config, p: string, folder: string) {
    folder in config && StartsWith(p, folder) && forall g :: g in config && StartsWith(p, g) ==> |g| <= |folder|
  }

  /** With that order, the first match is the longest configured prefix. */
  lemma FirstIsLongest(entries: seq<FolderConfig>, config: Config, p: string)
    requires Sorted(entries) && Holds(entries, config)
    ensures var k := First(entries, p, 0);
      if k < |entries| then IsLongest(config, p, entries[k].path) && config[entries[k].path] == entries[k].isIncluded
      else forall g :: g in config ==> !StartsWith(p, g)
  {
    var k := First(entries, p, 0);
    forall g | g in config && StartsWith(p, g) ensures k < |entries| && |g| <= |entries[k].path| {
      assert FolderConfig(g, config[g]) in entries;
      var m :| 0 <= m < |entries| && entries[m] == FolderConfig(g, config[g]);
      assert m > k ==> Less(entries[k].path, entries[m].path);
    }
    if k < |entries| {
      assert FolderConfig(entries[k].path, entries[k].isIncluded) in entries;
    }
  }

  /** The verdict in terms of the configuration: included exactly if the longest configured prefix is. */
  lemma VerdictIsLongest(entries: seq<FolderConfig>, config: Config, p: string)
    requires Sorted(entries) && Holds(entries, config)
    ensures forall folder ::
      VerdictOn(entries, p) == Included(folder) <==> IsLongest(config, p, folder) && config[folder]
  {
    FirstIsLongest(entries, config, p);
    var k := First(entries, p, 0);
    forall folder | IsLongest(config, p, folder) ensures k < |entries| && folder == entries[k].path {
      PrefixesNest(folder, entries[k].path, p);
    }
  }

  /** std::lower_bound. */
  function LowerBound(entries: seq<FolderConfig>, path: string): (i: nat)
    ensures i <= |entries| && forall j :: 0 <= j < i ==> Less(entries[j].path, path)
    ensures i < |entries| ==> !Less(entries[i].path, path)
  {
    if entries == [] || !Less(entries[0].path, path) then 0 else 1 + LowerBound(entries[1..], path)
  }

  /** All entries from the insertion point on come after the new one. */
  lemma InsertionPoint(entries: seq<FolderConfig>, i: nat, path: string)
    requires Sorted(entries) && i == LowerBound(entries, path) && (i < |entries| ==> entries[i].path != path)
    ensures forall j :: i <= j < |entries| ==> Less(path, entries[j].path)
  {
    if i < |entries| {
      LessOrder(entries[i].path, path);
      forall j | i < j < |entries| ensures Less(path, entries[j].path) {
        LessTransitive(path, entries[i].path, entries[j].path);
      }
    }
  }

  lemma InsertSorted(entries: seq<FolderConfig>, i: nat, e: FolderConfig)
    requires Sorted(entries) && i <= |entries| && forall j :: 0 <= j < i ==> Less(entries[j].path, e.path)
    requires forall j :: i <= j < |entries| ==> Less(e.path, entries[j].path)
    ensures Sorted(entries[..i] + [e] + entries[i..])
  {
  }

  lemma InsertNew(entries: seq<FolderConfig>, i: nat, e: FolderConfig)
    requires i <= |entries| && forall j :: 0 <= j < i ==> Less(entries[j].path, e.path)
    requires forall j :: i <= j < |entries| ==> Less(e.path, entries[j].path)
    ensures forall x :: x in entries ==> x.path != e.path
  {
    forall x | x in entries ensures x.path != e.path {
      var j :| 0 <= j < |entries| && entries[j] == x;
      LessOrder(x.path, e.path);
    }
  }

  lemma InsertHolds(entries: seq<FolderConfig>, i: nat, e: FolderConfig, config: Config)
    requires Holds(entries, config) && i <= |entries| && forall x :: x in entries ==> x.path != e.path
    ensures Holds(entries[..i] + [e] + entries[i..], config[e.path := e.isIncluded]) && e.path !in config
  {
    assert forall path :: path in config ==> FolderConfig(path, config[path]) in entries;
    assert entries == entries[..i] + entries[i..];
    forall path, included
      ensures FolderConfig(path, included) in entries[..i] + [e] + entries[i..] <==>
        path in config[e.path := e.isIncluded] && config[e.path := e.isIncluded][path] == included
    {
      assert FolderConfig(path, included) in entries <==> path in config && config[path] == included;
    }
  }

  /** A setting as it is entered: empty ones are refused, and of two for one folder the first counts. */
  function WithFolder(config: Config, folder: string, included: bool, cleanPath: string -> string): Config {
    if folder == "" || cleanPath(folder) + "/" in config then config else config[cleanPath(folder) + "/" := included]
  }

  function WithFolders(config: Config, folders: seq<string>, included: bool, cleanPath: string -> string): Config {
    if folders == [] then config else
      WithFolder(WithFolders(config, folders[..|folders| - 1], included, cleanPath), folders[|folders| - 1], included,
        cleanPath)
  }

  /** Some folder of the list is entered at that path. */
  ghost predicate Names(folders: seq<string>, path: string, cleanPath: string -> string) {
    exists f :: f in folders && f != "" && path == cleanPath(f) + "/"
  }

  lemma {:induction false} WithFoldersMeans(config: Config, folders: seq<string>, included: bool,
                                            cleanPath: string -> string, path: string)
    ensures path in WithFolders(config, folders, included, cleanPath) <==>
      path in config || Names(folders, path, cleanPath)
    ensures path in config ==> WithFolders(config, folders, included, cleanPath)[path] == config[path]
    ensures path !in config && Names(folders, path, cleanPath) ==>
      WithFolders(config, folders, included, cleanPath)[path] == included
  {
    if folders != [] {
      var n := |folders| - 1;
      WithFoldersMeans(config, folders[..n], included, cleanPath, path);
      assert folders == folders[..n] + [folders[n]];
      if f :| f in folders && f != "" && path == cleanPath(f) + "/" {
        assert f in folders[..n] ==> Names(folders[..n], path, cleanPath);
      }
      if Names(folders[..n], path, cleanPath) {
        var f :| f in folders[..n] && f != "" && path == cleanPath(f) + "/";
        assert f in folders;
      }
      if folders[n] != "" && path == cleanPath(folders[n]) + "/" {
        assert folders[n] in folders;
      }
    }
  }

  class FolderCache {
    var entries: seq<FolderConfig>

    constructor ()
      ensures entries == []
    {
      entries := [];
    }

    method AddFolderConfig(config: FolderConfig, cleanPath: string -> string, ghost before: Config)
      returns (added: bool)
      requires Sorted(entries) && Holds(entries, before)
      modifies this
      ensures Sorted(entries) && Holds(entries, WithFolder(before, config.path, config.isIncluded, cleanPath))
      ensures added <==> config.path != "" && cleanPath(config.path) + "/" !in before
    {
      if config.path == "" {
        return false;
      }
      var newConfig := FolderConfig(cleanPath(config.path) + "/", config.isIncluded);
      var it := LowerBound(entries, newConfig.path);
      if it < |entries| && entries[it].path == newConfig.path {
        assert FolderConfig(entries[it].path, entries[it].isIncluded) in entries;
        return false;
      }
      InsertionPoint(entries, it, newConfig.path);
      InsertSorted(entries, it, newConfig);
      InsertNew(entries, it, newConfig);
      InsertHolds(entries, it, newConfig, before);
      entries := entries[..it] + [newConfig] + entries[it..];
      return true;
    }

    method AddFolders(folders: seq<string>, included: bool, cleanPath: string -> string, ghost before: Config)
      requires Sorted(entries) && Holds(entries, before)
      modifies this
      ensures Sorted(entries) && Holds(entries, WithFolders(before, folders, included, cleanPath))
    {
      for i := 0 to |folders|
        invariant Sorted(entries) && Holds(entries, WithFolders(before, folders[..i], included, cleanPath))
      {
        assert folders[..i + 1][..i] == folders[..i];
        var added := AddFolderConfig(FolderConfig(folders[i], included), cleanPath,
          WithFolders(before, folders[..i], included, cleanPath));
      }
      assert folders[..|folders|] == folders;
    }

    /**
      Removes the excluded entries that make no difference.  No verdict changes, no
      included entry goes, and every excluded entry that stays has an included one as
      the nearest entry above it; a second cleanup finds nothing to remove.
     */
    method Cleanup()
      requires Sorted(entries)
      modifies this
      ensures Sorted(entries) && Simplified(entries, |entries|)
      ensures forall p :: VerdictOn(entries, p) == VerdictOn(old(entries), p)
      ensures forall e :: e in entries ==> e in old(entries)
      ensures forall e :: e in old(entries) && e.isIncluded ==> e in entries
      ensures Simplified(old(entries), |old(entries)|) ==> entries == old(entries)
    {
      var i := 0;
      while i < |entries|
        invariant i <= |entries| && Sorted(entries) && Simplified(entries, i)
        invariant forall p :: VerdictOn(entries, p) == VerdictOn(old(entries), p)
        invariant forall e :: e in entries ==> e in old(entries)
        invariant forall e :: e in old(entries) && e.isIncluded ==> e in entries
        invariant Simplified(old(entries), |old(entries)|) ==> entries == old(entries)
        decreases |entries| - i
      {
        if entries[i].isIncluded {
          i := i + 1;
          continue;
        }
        var parent := First(entries, entries[i].path, i + 1);
        if parent < |entries| && entries[parent].isIncluded {
          i := i + 1;
        } else {
          assert Redundant(entries, i);
          assert !Simplified(old(entries), |old(entries)|);
          EraseSorted(entries, i);
          EraseKeepsSimplified(entries, i);
          forall p ensures VerdictOn(WithoutAt(entries, i), p) == VerdictOn(entries, p) {
            EraseKeepsVerdict(entries, i, p);
          }
          EraseMembers(entries, i);
          entries := WithoutAt(entries, i);
        }
      }
    }
  }

  lemma EraseMembers(entries: seq<FolderConfig>, i: nat)
    requires i < |entries|
    ensures forall e :: e in WithoutAt(entries, i) ==> e in entries
    ensures forall e :: e in entries && e != entries[i] ==> e in WithoutAt(entries, i)
  {
    assert entries == entries[..i] + [entries[i]] + entries[i + 1..];
  }

  /** Without trailing slashes, then with one. */
  function NormalizeTrailingSlashes(path: string): string {
    if path != "" && path[|path| - 1] == '/' then NormalizeTrailingSlashes(path[..|path| - 1]) else path + "/"
  }

  datatype Medium = Medium(mountPath: string, usable: bool)

  /** The configuration that the settings and the mounted media amount to. */
  function Configured(folders: seq<string>, excludedFolders: seq<string>, media: seq<Medium>,
                      cleanPath: string -> string): Config {
    WithFolders(WithFolders(WithFolders(map[], folders, true, cleanPath), excludedFolders, false, cleanPath),
                Unmounted(folders, media), false, cleanPath)
  }

  /** The mount paths of media that cannot be used and are not explicitly included. */
  function Unmounted(folders: seq<string>, media: seq<Medium>): seq<string> {
    if media == [] then [] else
      var m := media[|media| - 1];
      Unmounted(folders, media[..|media| - 1]) +
      if !m.usable && m.mountPath != "" && m.mountPath !in folders then [m.mountPath] else []
  }

  /** Included folders win over excluded ones; media only exclude what is not mentioned. */
  lemma ConfiguredMeans(folders: seq<string>, excludedFolders: seq<string>, media: seq<Medium>,
                        cleanPath: string -> string, path: string)
    ensures var config := Configured(folders, excludedFolders, media, cleanPath);
      (path in config && config[path] <==> Names(folders, path, cleanPath)) &&
      (path in config && !config[path] <==>
        !Names(folders, path, cleanPath) &&
        (Names(excludedFolders, path, cleanPath) || Names(Unmounted(folders, media), path, cleanPath)))
  {
    var a := WithFolders(map[], folders, true, cleanPath);
    var b := WithFolders(a, excludedFolders, false, cleanPath);
    WithFoldersMeans(map[], folders, true, cleanPath, path);
    WithFoldersMeans(a, excludedFolders, false, cleanPath, path);
    WithFoldersMeans(b, Unmounted(folders, media), false, cleanPath, path);
  }

  class FileIndexerConfig {
    var folders: seq<string>
    var excludedFolders: seq<string>
    var media: seq<Medium>
    const cleanPath: string -> string
    const excludeFilter: string -> bool
    const indexHidden: bool
    var folderCache: seq<FolderConfig>
    var folderCacheDirty: bool

    ghost function Configuration(): Config
      reads this
    {
      Configured(folders, excludedFolders, media, cleanPath)
    }

    /** The cache, once it has been built, decides as the configuration does. */
    ghost predicate Valid()
      reads this
    {
      !folderCacheDirty ==>
        Sorted(folderCache) && Simplified(folderCache, |folderCache|) &&
        forall p, folder ::
          VerdictOn(folderCache, p) == Included(folder) <==>
            IsLongest(Configuration(), p, folder) && Configuration()[folder]
    }

    constructor (folders: seq<string>, excludedFolders: seq<string>, media: seq<Medium>, cleanPath: string -> string,
                 excludeFilter: string -> bool, indexHidden: bool)
      ensures Valid() && this.folders == folders && this.excludedFolders == excludedFolders && this.media == media
      ensures this.cleanPath == cleanPath && this.excludeFilter == excludeFilter && this.indexHidden == indexHidden
    {
      this.folders, this.excludedFolders, this.media := folders, excludedFolders, media;
      this.cleanPath, this.excludeFilter, this.indexHidden := cleanPath, excludeFilter, indexHidden;
      folderCache, folderCacheDirty := [], true;
    }

    method BuildFolderCache()
      requires Valid()
      modifies this`folderCache, this`folderCacheDirty
      ensures Valid() && !folderCacheDirty
    {
      if !folderCacheDirty {
        return;
      }
      var cache := new FolderCache();
      cache.AddFolders(folders, true, cleanPath, map[]);
      cache.AddFolders(excludedFolders, false, cleanPath, WithFolders(map[], folders, true, cleanPath));
      AddMedia(cache);
      ghost var all := cache.entries;
      cache.Cleanup();
      forall p, folder
        ensures VerdictOn(cache.entries, p) == Included(folder) <==>
          IsLongest(Configuration(), p, folder) && Configuration()[folder]
      {
        VerdictIsLongest(all, Configuration(), p);
      }
      folderCache := cache.entries;
      folderCacheDirty := false;
    }

    method AddMedia(cache: FolderCache)
      requires Sorted(cache.entries)
      requires Holds(cache.entries,
                     WithFolders(WithFolders(map[], folders, true, cleanPath), excludedFolders, false, cleanPath))
      modifies cache
      ensures Sorted(cache.entries) && Holds(cache.entries, Configuration())
    {
      ghost var before := WithFolders(WithFolders(map[], folders, true, cleanPath), excludedFolders, false, cleanPath);
      for i := 0 to |media|
        invariant Sorted(cache.entries)
        invariant Holds(cache.entries, WithFolders(before, Unmounted(folders, media[..i]), false, cleanPath))
      {
        assert media[..i + 1][..i] == media[..i];
        ghost var paths := Unmounted(folders, media[..i]);
        var device := media[i];
        if !device.usable && device.mountPath != "" && device.mountPath !in folders {
          var added := cache.AddFolderConfig(FolderConfig(device.mountPath, false), cleanPath,
            WithFolders(before, paths, false, cleanPath));
          assert (paths + [device.mountPath])[..|paths|] == paths;
        } else {
          assert paths + [] == paths;
        }
      }
      assert media[..|media|] == media;
    }

    /** The included folder that decides for a path, if one does. */
    method FolderInFolderList(path: string) returns (found: bool, folder: string)
      requires Valid()
      modifies this`folderCache, this`folderCacheDirty
      ensures Valid()
      ensures var p := NormalizeTrailingSlashes(path);
        found <==> exists f :: IsLongest(Configuration(), p, f) && Configuration()[f]
      ensures found ==> IsLongest(Configuration(), NormalizeTrailingSlashes(path), folder) && Configuration()[folder]
    {
      BuildFolderCache();
      var p := NormalizeTrailingSlashes(path);
      for i := 0 to |folderCache|
        invariant forall k :: 0 <= k < i ==> !StartsWith(p, folderCache[k].path)
      {
        if StartsWith(p, folderCache[i].path) {
          FirstIs(folderCache, p, 0, i);
          assert VerdictOn(folderCache, p) ==
            if folderCache[i].isIncluded then Included(folderCache[i].path) else NotIncluded;
          return folderCache[i].isIncluded, folderCache[i].path;
        }
      }
      FirstIs(folderCache, p, 0, |folderCache|);
      assert VerdictOn(folderCache, p) == NotIncluded;
      return false, "";
    }

    predicate ShouldFileBeIndexed(fileName: string) {
      !(!indexHidden && StartsWith(fileName, ".")) && !excludeFilter(fileName)
    }

    /** No name on the way down from a folder is filtered out. */
    ghost predicate NothingFiltered(p: string, folder: string)
      requires |folder| <= |p|
    {
      forall c :: c in Components(p[|folder|..]) ==> !excludeFilter(c) && (indexHidden || !StartsWith(c, "."))
    }

    /** The folder decides for the path, and lets it through. */
    ghost predicate LetsThrough(p: string, folder: string)
      reads this
    {
      IsLongest(Configuration(), p, folder) && Configuration()[folder] && NothingFiltered(p, folder)
    }

    method AllShouldBeIndexed(names: seq<string>) returns (r: bool)
      ensures r <==> forall c :: c in names ==> !excludeFilter(c) && (indexHidden || !StartsWith(c, "."))
    {
      for i := 0 to |names|
        invariant forall k :: 0 <= k < i ==> ShouldFileBeIndexed(names[k])
      {
        if !ShouldFileBeIndexed(names[i]) {
          assert names[i] in names;
          return false;
        }
      }
      return true;
    }

    /**
      A folder is indexed exactly if the longest configured folder above it is included
      and no name on the way down from there is filtered out.
     */
    method ShouldFolderBeIndexed(path: string) returns (r: bool)
      requires Valid()
      modifies this`folderCache, this`folderCacheDirty
      ensures Valid()
      ensures r <==> exists f :: LetsThrough(NormalizeTrailingSlashes(path), f)
    {
      var normalizedPath := NormalizeTrailingSlashes(path);
      NormalizeTwice(path);
      var found, folder := FolderInFolderList(normalizedPath);
      if !found {
        return false;
      }
      forall f | LetsThrough(normalizedPath, f) ensures f == folder {
        PrefixesNest(f, folder, normalizedPath);
      }
      if folder == normalizedPath {
        assert normalizedPath[|folder|..] == "";
        ComponentsOfEmpty();
        assert LetsThrough(normalizedPath, folder);
        return true;
      }
      r := AllShouldBeIndexed(Components(normalizedPath[|folder|..]));
      assert r <==> LetsThrough(normalizedPath, folder);
    }

    /** A file is indexed exactly if its folder is and neither its being hidden nor its name prevents it. */
    method ShouldBeIndexed(path: string, isDir: bool, folder: string, fileName: string, isHidden: bool)
      returns (r: bool)
      requires Valid()
      modifies this`folderCache, this`folderCacheDirty
      ensures Valid()
      ensures isDir ==> (r <==> exists f :: LetsThrough(NormalizeTrailingSlashes(path), f))
      ensures !isDir ==> (r <==>
        (exists f :: LetsThrough(NormalizeTrailingSlashes(folder), f)) && !excludeFilter(fileName) &&
        (indexHidden || (!isHidden && !StartsWith(fileName, "."))))
    {
      if isDir {
        r := ShouldFolderBeIndexed(path);
      } else {
        r := ShouldFolderBeIndexed(folder);
        r := r && (!isHidden || indexHidden) && ShouldFileBeIndexed(fileName);
      }
    }
  }

  lemma {:induction false} NormalizeTwice(path: string)
    ensures NormalizeTrailingSlashes(NormalizeTrailingSlashes(path)) == NormalizeTrailingSlashes(path)
  {
    if path != "" && path[|path| - 1] == '/' {
      NormalizeTwice(path[..|path| - 1]);
    } else {
      assert (path + "/")[..|path|] == path;
    }
  }
}
