/** Notions about lists that several components share. */
module Sequences {
  /** QString::startsWith, QByteArray::startsWith. */
  predicate StartsWith<T(==)>(s: seq<T>, prefix: seq<T>) {
    |prefix| <= |s| && s[..|prefix|] == prefix
  }

  ghost predicate NoRepeats<T>(list: seq<T>) {
    forall i, j :: 0 <= i < j < |list| ==> list[i] != list[j]
  }

  function Elements<T(!new)>(list: seq<T>): (s: set<T>)
    ensures forall x :: x in s <==> x in list
  {
    set x | x in list
  }

  /** The list without the element at an index. */
  function WithoutAt<T>(s: seq<T>, n: nat): seq<T>
    requires n < |s|
  {
    s[..n] + s[n + 1..]
  }
}
