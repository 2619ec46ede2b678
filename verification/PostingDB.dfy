/**
  Scans of the posting table (src/engine/postingdb.cpp).  Its keys come in byte-wise
  lexicographic order; a cursor stands on the least key of those still ahead of it.
 */
module PostingDBs {
  import opened IdUtils
  import opened InvertedIndex
  import opened Cursors
  import opened OrMerging
  import opened PostingIterators
  import opened SearchTree

  /** memcmp over the common length, then the shorter key first. */
  predicate LexLe(a: Term, b: Term) {
    a == [] || (b != [] && (a[0] < b[0] || (a[0] == b[0] && LexLe(a[1..], b[1..]))))
  }

  lemma {:induction false} LexTotal(a: Term, b: Term)
    ensures LexLe(a, b) || LexLe(b, a)
    ensures LexLe(a, b) && LexLe(b, a) ==> a == b
  {
    if a != [] && b != [] {
      LexTotal(a[1..], b[1..]);
      assert a == [a[0]] + a[1..] && b == [b[0]] + b[1..];
    }
  }

  lemma {:induction false} LexTransitive(a: Term, b: Term, c: Term)
    requires LexLe(a, b) && LexLe(b, c)
    ensures LexLe(a, c)
  {
    if a != [] && a[0] == b[0] == c[0] {
      LexTransitive(a[1..], b[1..], c[1..]);
    }
  }

  /** The keys with a given prefix are the ones from the prefix on, up to the first key without it. */
  lemma {:induction false} PrefixInterval(prefix: Term, a: Term, b: Term)
    requires LexLe(prefix, a) && LexLe(a, b) && prefix <= b
    ensures prefix <= a
  {
    if prefix != [] {
      assert prefix[0] == b[0];
      assert prefix[1..] <= b[1..];
      PrefixInterval(prefix[1..], a[1..], b[1..]);
      assert a == [a[0]] + a[1..] && prefix == [prefix[0]] + prefix[1..];
    }
  }

  lemma {:induction false} PrefixIsLess(prefix: Term, t: Term)
    requires prefix <= t
    ensures LexLe(prefix, t)
  {
    if prefix != [] {
      PrefixIsLess(prefix[1..], t[1..]);
    }
  }

  /** The least of a set of keys, if there is one. */
  ghost predicate IsFirst(keys: set<Term>, found: bool, key: Term) {
    (found <==> keys != {}) && (found ==> key in keys && forall k :: k in keys ==> LexLe(key, k))
  }

  /** Where a cursor lands that looks for the least of these keys. */
  method First(keys: set<Term>) returns (found: bool, key: Term)
    ensures IsFirst(keys, found, key)
  {
    found, key := false, [];
    var rest := keys;
    while rest != {}
      invariant rest <= keys && IsFirst(keys - rest, found, key)
      decreases rest
    {
      var k :| k in rest;
      if !found || !LexLe(key, k) {
        forall x | x in keys - rest ensures LexLe(k, x) {
          LexTotal(key, k);
          LexTransitive(k, key, x);
        }
        LexTotal(k, k);
        found, key := true, k;
      }
      rest := rest - {k};
    }
    assert keys - {} == keys;
  }

  /** The keys of a scan for a prefix that are still ahead. */
  ghost predicate Ahead(keys: set<Term>, prefix: Term, rest: set<Term>, found: bool, key: Term) {
    rest <= keys && (forall k :: k in rest ==> LexLe(prefix, k)) && IsFirst(rest, found, key)
  }

  /** The scan has stopped: nothing ahead has the prefix any more. */
  lemma ScanEnds(keys: set<Term>, prefix: Term, rest: set<Term>, found: bool, key: Term)
    requires Ahead(keys, prefix, rest, found, key) && !(found && prefix <= key)
    ensures forall k :: k in rest ==> !(prefix <= k)
  {
    forall k | k in rest ensures !(prefix <= k) {
      if prefix <= k {
        PrefixInterval(prefix, key, k);
      }
    }
  }

  /** The keys that are not before the prefix; all keys that have it are among them. */
  function FromPrefix(postings: Postings, prefix: Term): (rest: set<Term>)
    ensures rest <= postings.Keys
    ensures forall t :: t in postings && prefix <= t ==> t in rest
    ensures forall t :: t in rest ==> LexLe(prefix, t)
  {
    assert forall t :: t in postings && prefix <= t ==> LexLe(prefix, t) by {
      forall t | t in postings && prefix <= t ensures LexLe(prefix, t) {
        PrefixIsLess(prefix, t);
      }
    }
    set k | k in postings.Keys && LexLe(prefix, k)
  }

  ghost predicate LexAscending(terms: seq<Term>) {
    forall i, j :: 0 <= i < j < |terms| ==> LexLe(terms[i], terms[j]) && terms[i] != terms[j]
  }

  /** All terms with a prefix, in key order, although the scan stops at the first key without it. */
  method FetchTermsStartingWith(postings: Postings, prefix: Term) returns (terms: seq<Term>)
    ensures LexAscending(terms) && forall t :: t in terms <==> t in postings && prefix <= t
  {
    terms := [];
    var rest := FromPrefix(postings, prefix);
    var found, key := First(rest);
    while found && prefix <= key
      invariant Ahead(postings.Keys, prefix, rest, found, key)
      invariant LexAscending(terms) && forall t, k :: t in terms && k in rest ==> LexLe(t, k)
      invariant forall t :: t in terms <==> t in postings && prefix <= t && t !in rest
      decreases rest
    {
      terms := terms + [key];
      rest := rest - {key};
      found, key := First(rest);
    }
    ScanEnds(postings.Keys, prefix, rest, found, key);
  }

  /** Posting lists as they are stored. */
  ghost predicate StoredLists(postings: Postings) {
    forall t :: t in postings ==> postings[t] != [] && Ascending(postings[t], IdOf) && 0 !in postings[t]
  }

  /** PostingDB::iter for one term. */
  method TermIter(postings: Postings, term: Term) returns (it: PostingIterator?)
    requires StoredLists(postings)
    ensures it == null <==> term !in postings
    ensures it != null ==>
      it.Valid() && it.cursor == Start && fresh(it.Repr) && forall y :: y in it.Ids <==> y in postings[term]
  {
    if term !in postings {
      return null;
    }
    it := new PostingIterator.OfVector(postings[term]);
  }

  ghost predicate Matches(prefix: Term, validate: Term -> bool, t: Term) {
    prefix <= t && validate(t)
  }

  /** PostingDB::iter for a prefix: the union over all terms with that prefix that pass the validator. */
  method PrefixIter(postings: Postings, prefix: Term, validate: Term -> bool) returns (it: PostingIterator?)
    requires StoredLists(postings)
    ensures it == null <==> forall t :: t in postings ==> !Matches(prefix, validate, t)
    ensures it != null ==> it.Valid() && it.cursor == Start && fresh(it.Repr)
    ensures it != null ==>
      forall y :: y in it.Ids <==> exists t :: t in postings && Matches(prefix, validate, t) && y in postings[t]
  {
    var vec;
    ghost var repr, height, terms;
    vec, repr, height, terms := CollectTerms(postings, prefix, validate);
    if |vec| == 0 {
      return null;
    }
    assert terms[0] in terms;
    it := PostingIterator.MakeOr(vec, repr, height);
    TermsUnion(postings, terms, SetsOf(vec), it.Ids);
  }

  ghost predicate Gathered(postings: Postings, prefix: Term, validate: Term -> bool, terms: seq<Term>,
                           rest: set<Term>) {
    forall t :: t in terms <==> t in postings && Matches(prefix, validate, t) && t !in rest
  }

  method CollectTerms(postings: Postings, prefix: Term, validate: Term -> bool)
    returns (vec: seq<PostingIterator>, ghost repr: set<PostingIterator>, ghost height: nat, ghost terms: seq<Term>)
    requires StoredLists(postings)
    ensures Built(vec, repr, height) && fresh(repr) && ListsOf(postings, terms, SetsOf(vec))
    ensures forall t :: t in terms <==> t in postings && Matches(prefix, validate, t)
  {
    vec, repr, height, terms := [], {}, 0, [];
    var rest := FromPrefix(postings, prefix);
    var found, key := First(rest);
    while found && prefix <= key
      invariant Ahead(postings.Keys, prefix, rest, found, key)
      invariant Built(vec, repr, height) && fresh(repr) && ListsOf(postings, terms, SetsOf(vec))
      invariant Gathered(postings, prefix, validate, terms, rest)
      decreases rest
    {
      if validate(key) {
        vec, repr, height := PushTerm(postings, key, vec, repr, height, terms);
        terms := terms + [key];
      }
      rest := rest - {key};
      found, key := First(rest);
    }
    ScanEnds(postings.Keys, prefix, rest, found, key);
  }

  /** The sets are those of the terms' posting lists. */
  ghost predicate ListsOf(postings: Postings, terms: seq<Term>, ids: seq<set<Id>>) {
    |ids| == |terms| && forall i :: 0 <= i < |terms| ==>
      terms[i] in postings && forall y :: y in ids[i] <==> y in postings[terms[i]]
  }

  /** One more term's iterator. */
  method PushTerm(postings: Postings, term: Term, vec: seq<PostingIterator>, ghost repr: set<PostingIterator>,
                  ghost height: nat, ghost terms: seq<Term>)
    returns (vec': seq<PostingIterator>, ghost repr': set<PostingIterator>, ghost height': nat)
    requires StoredLists(postings) && term in postings
    requires Built(vec, repr, height) && ListsOf(postings, terms, SetsOf(vec))
    ensures Built(vec', repr', height') && fresh(repr' - repr) && ListsOf(postings, terms + [term], SetsOf(vec'))
  {
    var it := TermIter(postings, term);
    ListsGrow(postings, terms, SetsOf(vec), term, it.Ids);
    vec', repr', height' := Push(vec, repr, height, it);
  }

  lemma ListsGrow(postings: Postings, terms: seq<Term>, ids: seq<set<Id>>, term: Term, s: set<Id>)
    requires ListsOf(postings, terms, ids) && term in postings && forall y :: y in s <==> y in postings[term]
    ensures ListsOf(postings, terms + [term], ids + [s])
  {
  }

  lemma TermsUnion(postings: Postings, terms: seq<Term>, ids: seq<set<Id>>, all: set<Id>)
    requires ListsOf(postings, terms, ids) && IsUnion(all, ids)
    ensures forall y :: y in all <==> exists t :: t in terms && y in postings[t]
  {
    forall y ensures y in all <==> exists t :: t in terms && y in postings[t] {
      if y in all {
        var i :| 0 <= i < |ids| && y in ids[i];
        assert terms[i] in terms && y in postings[terms[i]];
      }
      if t :| t in terms && y in postings[t] {
        var i :| 0 <= i < |terms| && terms[i] == t;
        assert y in ids[i];
      }
    }
  }
}
