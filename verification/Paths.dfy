/** Paths as byte strings with '/' between names. */
module Paths {
  /** QByteArray::lastIndexOf('/'). */
  function LastSlash(s: string): (p: int)
    ensures -1 <= p < |s|
    ensures p >= 0 ==> s[p] == '/'
    ensures forall j :: p < j < |s| ==> s[j] != '/'
  {
    if s == "" then -1 else if s[|s| - 1] == '/' then |s| - 1 else LastSlash(s[..|s| - 1])
  }

  predicate EndsWithSlash(path: string) {
    path != "" && path[|path| - 1] == '/'
  }

  /** A file name: not empty, without '/'. */
  predicate IsName(n: string) {
    n != "" && '/' !in n
  }

  /** QByteArray::split('/'). */
  function Split(s: string): seq<string> {
    var p := LastSlash(s);
    if p < 0 then [s] else Split(s[..p]) + [s[p + 1..]]
  }

  function NonEmpty(parts: seq<string>): seq<string> {
    if parts == [] then [] else
      var n := |parts| - 1;
      NonEmpty(parts[..n]) + if parts[n] == "" then [] else [parts[n]]
  }

  /** The names a path goes through; repeated and trailing slashes do not count. */
  function Components(path: string): seq<string> {
    NonEmpty(Split(path))
  }

  lemma LastSlashIs(s: string, p: int)
    requires 0 <= p < |s| && s[p] == '/' && forall j :: p < j < |s| ==> s[j] != '/'
    ensures LastSlash(s) == p
  {
  }

  lemma ComponentsAppend(path: string, name: string)
    requires IsName(name)
    ensures Components(path + "/" + name) == Components(path) + [name]
  {
    var s := path + "/" + name;
    LastSlashIs(s, |path|);
    assert s[..|path|] == path && s[|path| + 1..] == name;
    assert (Split(path) + [name])[..|Split(path)|] == Split(path);
  }

  lemma ComponentsOfEmpty()
    ensures Components("") == []
  {
  }

  lemma ComponentsDropSlash(path: string)
    ensures Components(path + "/") == Components(path)
  {
    var s := path + "/";
    LastSlashIs(s, |path|);
    assert s[..|path|] == path && s[|path| + 1..] == "";
    assert (Split(path) + [""])[..|Split(path)|] == Split(path);
  }
}
