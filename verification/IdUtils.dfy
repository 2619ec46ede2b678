/**
  Sorted id lists (src/engine/idutils.h) and the library algorithms the engine
  runs on them.  A list element is either a bare document id or a PositionInfo,
  which compares by its document id alone; `key` selects that id.
 */
module IdUtils {
  /** A document id; 0 means "no document". */
  type Id = nat

  /** The occurrences of one term in one document (src/engine/positioninfo.h). */
  datatype PositionInfo = PositionInfo(docId: Id, positions: seq<nat>)

  function IdOf(id: Id): Id { id }

  function DocIdOf(info: PositionInfo): Id { info.docId }

  /** Strictly ascending by key: sorted, and no key twice. */
  ghost predicate Ascending<T>(s: seq<T>, key: T -> Id) {
    forall i, j :: 0 <= i < j < |s| ==> key(s[i]) < key(s[j])
  }

  ghost predicate HasKey<T>(s: seq<T>, key: T -> Id, id: Id) {
    exists i :: 0 <= i < |s| && key(s[i]) == id
  }

  /** std::lower_bound: the number of leading elements below id. */
  function LowerBound<T>(s: seq<T>, key: T -> Id, id: Id): (i: nat)
    ensures i <= |s|
    ensures forall j :: 0 <= j < i ==> key(s[j]) < id
    ensures i < |s| ==> id <= key(s[i])
  {
    if s == [] || id <= key(s[0]) then 0 else 1 + LowerBound(s[1..], key, id)
  }

  function SortedIdInsert<T>(s: seq<T>, x: T, key: T -> Id): seq<T> {
    var i := LowerBound(s, key, key(x));
    if i == |s| || key(s[i]) != key(x) then s[..i] + [x] + s[i..] else s
  }

  /** QVector::indexOf, or the length when no element has that key. */
  function IndexOf<T>(s: seq<T>, key: T -> Id, id: Id): (i: nat)
    ensures i <= |s|
    ensures forall j :: 0 <= j < i ==> key(s[j]) != id
    ensures i < |s| ==> key(s[i]) == id
  {
    if s == [] || key(s[0]) == id then 0 else 1 + IndexOf(s[1..], key, id)
  }

  function SortedIdRemove<T>(s: seq<T>, id: Id, key: T -> Id): seq<T> {
    var i := IndexOf(s, key, id);
    if i < |s| then s[..i] + s[i + 1..] else s
  }

  lemma MembersOfInsertion<T>(s: seq<T>, i: nat, x: T)
    requires i <= |s|
    ensures forall y :: y in s[..i] + [x] + s[i..] <==> y == x || y in s
  {
    forall y ensures y in s[..i] + [x] + s[i..] <==> y == x || y in s {
      assert s == s[..i] + s[i..];
    }
  }

  lemma MembersOfRemoval<T>(s: seq<T>, i: nat)
    requires i < |s|
    ensures forall y :: y in s <==> y == s[i] || y in s[..i] + s[i + 1..]
  {
    forall y ensures y in s <==> y == s[i] || y in s[..i] + s[i + 1..] {
      assert s == s[..i] + [s[i]] + s[i + 1..];
    }
  }

  lemma InsertTaken<T>(s: seq<T>, x: T, key: T -> Id)
    requires Ascending(s, key)
    ensures HasKey(s, key, key(x)) <==> SortedIdInsert(s, x, key) == s
  {
    var i := LowerBound(s, key, key(x));
    if HasKey(s, key, key(x)) {
      var j :| 0 <= j < |s| && key(s[j]) == key(x);
      assert i <= j;
    } else {
      assert |SortedIdInsert(s, x, key)| == |s| + 1;
    }
  }

  /** Inserting keeps the list ascending and adds x, unless its key is taken: then nothing changes. */
  lemma InsertIsSetInsert<T>(s: seq<T>, x: T, key: T -> Id)
    requires Ascending(s, key)
    ensures Ascending(SortedIdInsert(s, x, key), key)
    ensures HasKey(s, key, key(x)) ==> SortedIdInsert(s, x, key) == s
    ensures !HasKey(s, key, key(x)) ==> forall y :: y in SortedIdInsert(s, x, key) <==> y == x || y in s
  {
    InsertTaken(s, x, key);
    if !HasKey(s, key, key(x)) {
      var i := LowerBound(s, key, key(x));
      MembersOfInsertion(s, i, x);
      InsertionAscending(s, i, x, key);
    }
  }

  lemma InsertionAscending<T>(s: seq<T>, i: nat, x: T, key: T -> Id)
    requires Ascending(s, key) && i <= |s|
    requires forall j :: 0 <= j < i ==> key(s[j]) < key(x)
    requires i < |s| ==> key(x) < key(s[i])
    ensures Ascending(s[..i] + [x] + s[i..], key)
  {
    forall j | i <= j < |s| ensures key(x) < key(s[j]) {
      assert j == i || key(s[i]) < key(s[j]);
    }
  }

  /** Removing keeps the list ascending and drops exactly the element with that key. */
  lemma RemoveIsSetRemove<T>(s: seq<T>, id: Id, key: T -> Id)
    requires Ascending(s, key)
    ensures Ascending(SortedIdRemove(s, id, key), key)
    ensures forall y :: y in SortedIdRemove(s, id, key) <==> y in s && key(y) != id
  {
    var i := IndexOf(s, key, id);
    if i < |s| {
      MembersOfRemoval(s, i);
      RemovalKeys(s, i, key);
    }
  }

  lemma RemovalKeys<T>(s: seq<T>, i: nat, key: T -> Id)
    requires Ascending(s, key) && i < |s|
    ensures Ascending(s[..i] + s[i + 1..], key)
    ensures forall y :: y in s[..i] + s[i + 1..] ==> key(y) != key(s[i])
  {
    var r := s[..i] + s[i + 1..];
    forall y | y in r ensures key(y) != key(s[i]) {
      var j :| 0 <= j < |r| && r[j] == y;
      assert y == s[if j < i then j else j + 1];
    }
  }

  lemma FirstIsMember<T>(s: seq<T>)
    ensures s == [] || s[0] in s
  {
  }

  /** Two ascending id lists with the same members are the same list. */
  lemma {:induction false} AscendingUnique<T>(s: seq<T>, t: seq<T>, key: T -> Id)
    requires Ascending(s, key) && Ascending(t, key)
    requires forall x :: x in s <==> x in t
    ensures s == t
  {
    if s == [] {
      FirstIsMember(t);
    } else {
      assert s[0] in t;
      assert t[0] in s;
      var i :| 0 <= i < |t| && t[i] == s[0];
      var j :| 0 <= j < |s| && s[j] == t[0];
      assert i == 0;
      forall x ensures x in s[1..] <==> x in t[1..] {
        if x in s[1..] {
          var k :| 1 <= k < |s| && s[k] == x;
          assert x in t;
        }
        if x in t[1..] {
          var k :| 1 <= k < |t| && t[k] == x;
          assert x in s;
        }
      }
      AscendingUnique(s[1..], t[1..], key);
    }
  }

  ghost predicate Nondecreasing(s: seq<Id>) {
    forall i, j :: 0 <= i < j < |s| ==> s[i] <= s[j]
  }

  /** std::sort on ids, by its result: the same elements in nondecreasing order. */
  function Sort(s: seq<Id>): (r: seq<Id>)
    ensures multiset(r) == multiset(s)
    ensures Nondecreasing(r)
  {
    if s == [] then [] else
      var r := Sort(s[1..]);
      var i := LowerBound(r, IdOf, s[0]);
      SortStep(s, r, i);
      r[..i] + [s[0]] + r[i..]
  }

  lemma SortStep(s: seq<Id>, r: seq<Id>, i: nat)
    requires s != [] && multiset(r) == multiset(s[1..]) && Nondecreasing(r) && i <= |r|
    requires forall j :: 0 <= j < i ==> r[j] < s[0]
    requires i < |r| ==> s[0] <= r[i]
    ensures multiset(r[..i] + [s[0]] + r[i..]) == multiset(s)
    ensures Nondecreasing(r[..i] + [s[0]] + r[i..])
  {
    InsertionNondecreasing(r, i, s[0]);
    assert s == [s[0]] + s[1..];
    assert r == r[..i] + r[i..];
  }

  lemma InsertionNondecreasing(r: seq<Id>, i: nat, x: Id)
    requires Nondecreasing(r) && i <= |r|
    requires forall j :: 0 <= j < i ==> r[j] < x
    requires i < |r| ==> x <= r[i]
    ensures Nondecreasing(r[..i] + [x] + r[i..])
  {
    forall j | i <= j < |r| ensures x <= r[j] {
      assert j == i || r[i] <= r[j];
    }
  }

  /** std::unique followed by erase: adjacent duplicates collapse to one. */
  function Unique(s: seq<Id>): (r: seq<Id>)
    requires Nondecreasing(s)
    ensures Ascending(r, IdOf)
    ensures forall x :: x in r <==> x in s
  {
    if |s| <= 1 then s
    else
      var r := Unique(s[1..]);
      assert forall x :: x in s <==> x == s[0] || x in s[1..];
      assert s[1] in r;
      if s[0] == s[1] then r else
        assert forall i :: 0 <= i < |r| ==> r[i] in s[1..];
        [s[0]] + r
  }

  /** Sorting a list without duplicates makes it ascending. */
  lemma SortDistinct(s: seq<Id>)
    requires forall i, j :: 0 <= i < j < |s| ==> s[i] != s[j]
    ensures Ascending(Sort(s), IdOf)
    ensures forall x :: x in Sort(s) <==> x in s
  {
    var r := Sort(s);
    SameMembers(r, s);
    forall i: nat, j: nat | i < j < |r| ensures r[i] != r[j] {
      SortKeepsApart(s, r, i, j);
    }
  }

  lemma SortKeepsApart(s: seq<Id>, r: seq<Id>, i: nat, j: nat)
    requires multiset(r) == multiset(s) && i < j < |r|
    requires forall i, j :: 0 <= i < j < |s| ==> s[i] != s[j]
    ensures r[i] != r[j]
  {
    if r[i] == r[j] {
      TwiceInMultiset(r, i, j);
      OnceInMultiset(s, r[i]);
    }
  }

  lemma SameMembers(s: seq<Id>, t: seq<Id>)
    requires multiset(s) == multiset(t)
    ensures forall x :: x in s <==> x in t
  {
    forall x ensures x in s <==> x in t {
      assert x in s <==> x in multiset(s);
    }
  }

  lemma TwiceInMultiset(s: seq<Id>, i: nat, j: nat)
    requires i < j < |s| && s[i] == s[j]
    ensures multiset(s)[s[i]] >= 2
  {
    assert s == s[..j] + [s[j]] + s[j + 1..];
    assert s[i] in s[..j];
  }

  lemma {:induction false} OnceInMultiset(s: seq<Id>, x: Id)
    requires forall i, j :: 0 <= i < j < |s| ==> s[i] != s[j]
    ensures multiset(s)[x] <= 1
  {
    if s != [] {
      assert s == [s[0]] + s[1..];
      OnceInMultiset(s[1..], x);
      if s[0] == x {
        assert x !in s[1..];
      }
    }
  }
}
