/**
  The codec of a document's term list (src/codecs/doctermscodec.cpp).  Byte 0 ends a
  term; byte 1 ends the rest of a term that continues the one before.
 */
module DocTermsCodecs {
  import opened Sequences
  import opened Bytes
  import opened InvertedIndex

  /** An int of the source. */
  newtype Int32 = x | -0x8000_0000 <= x < 0x8000_0000

  /** As many as an int can count. */
  predicate Countable(size: nat) {
    size < 0x8000_0000
  }

  /** A term's bytes, given the term before it. */
  function Rest(prev: Term, term: Term): seq<Byte> {
    if StartsWith(term, prev) then term[|prev|..] + [1] else term + [0]
  }

  /** The first k terms. */
  function Encoded(terms: seq<Term>, k: nat): seq<Byte>
    requires 0 < k <= |terms|
  {
    if k == 1 then terms[0] + [0] else Encoded(terms, k - 1) + Rest(terms[k - 2], terms[k - 1])
  }

  method Encode(terms: seq<Term>) returns (full: seq<Byte>)
    requires terms != [] && Countable(|terms|)
    ensures full == Encoded(terms, |terms|)
  {
    full := terms[0] + [0];
    for i: Int32 := 1 to |terms| as Int32
      invariant full == Encoded(terms, i as int)
    {
      full := AppendNext(full, terms, i);
    }
  }

  method AppendNext(full: seq<Byte>, terms: seq<Term>, i: Int32) returns (r: seq<Byte>)
    requires 0 < i as int < |terms| && full == Encoded(terms, i as int)
    ensures r == Encoded(terms, i as int + 1)
  {
    r := AppendTerm(full, terms[i - 1], terms[i]);
  }

  method AppendTerm(full: seq<Byte>, prevTerm: Term, term: Term) returns (r: seq<Byte>)
    ensures r == full + Rest(prevTerm, term)
  {
    if StartsWith(term, prevTerm) {
      r := full + term[|prevTerm|..];
      r := r + [1];
    } else {
      r := full + term;
      r := r + [0];
    }
  }

  /** A term that starts with the one before is shortened to what follows, any other is written in full. */
  lemma RestMeans(prev: Term, term: Term)
    ensures prev <= term ==>
      |Rest(prev, term)| == |term| - |prev| + 1 && prev + Rest(prev, term)[..|term| - |prev|] == term &&
      Rest(prev, term)[|term| - |prev|] == 1
    ensures !(prev <= term) ==>
      |Rest(prev, term)| == |term| + 1 && Rest(prev, term)[..|term|] == term && Rest(prev, term)[|term|] == 0
  {
  }

  /** No byte of it ends a term. */
  predicate Plain(term: seq<Byte>) {
    forall i :: 0 <= i < |term| ==> term[i] != 0 && term[i] != 1
  }

  /** The position of the first byte that ends a term. */
  function Boundary(full: seq<Byte>): (i: nat)
    ensures i <= |full|
  {
    if full == [] || full[0] == 0 || full[0] == 1 then 0 else 1 + Boundary(full[1..])
  }

  lemma {:induction false} BoundaryIs(full: seq<Byte>, i: nat)
    requires i < |full| && Plain(full[..i]) && (full[i] == 0 || full[i] == 1)
    ensures Boundary(full) == i
  {
    if i > 0 {
      assert full[..i][0] == full[0];
      assert full[1..][..i - 1] == full[..i][1..];
      BoundaryIs(full[1..], i - 1);
    }
  }

  lemma {:induction false} BoundaryEnds(full: seq<Byte>)
    ensures Plain(full[..Boundary(full)])
    ensures Boundary(full) < |full| ==> full[Boundary(full)] == 0 || full[Boundary(full)] == 1
  {
    if full != [] && full[0] != 0 && full[0] != 1 {
      BoundaryEnds(full[1..]);
      var i := Boundary(full[1..]);
      assert full[..i + 1] == [full[0]] + full[1..][..i];
    }
  }

  lemma {:induction false} NoBoundary(full: seq<Byte>)
    requires Plain(full)
    ensures Boundary(full) == |full|
  {
    if full != [] {
      NoBoundary(full[1..]);
    }
  }

  /** The terms found so far, continued with those in the bytes. */
  function Decoded(list: seq<Term>, full: seq<Byte>): seq<Term>
    decreases |full|
  {
    var i := Boundary(full);
    if i == |full| then list
    else if full[i] == 0 then Decoded(list + [full[..i]], full[i + 1..])
    else if list == [] then list
    else Decoded(list + [list[|list| - 1] + full[..i]], full[i + 1..])
  }

  /** A word, the byte that ends it, and more. */
  lemma OneTerm(list: seq<Term>, word: seq<Byte>, end: Byte, tail: seq<Byte>)
    requires Plain(word) && (end == 0 || end == 1)
    ensures Decoded(list, word + [end] + tail) ==
      if end == 0 then Decoded(list + [word], tail)
      else if list == [] then list
      else Decoded(list + [list[|list| - 1] + word], tail)
  {
    var full := word + [end] + tail;
    assert full[..|word|] == word && full[|word| + 1..] == tail;
    BoundaryIs(full, |word|);
  }

  /** No byte in this part of the data ends a term. */
  predicate PlainBetween(full: seq<Byte>, from: nat, i: nat) {
    from <= i <= |full| && forall k :: from <= k < i ==> full[k] != 0 && full[k] != 1
  }

  /** The next byte that ends a term is at i. */
  lemma NextTerm(list: seq<Term>, full: seq<Byte>, from: nat, i: nat, arr: Term, tail: seq<Byte>)
    requires PlainBetween(full, from, i) && i < |full| && arr == full[from..i] && tail == full[i + 1..]
    ensures full[i] == 0 ==> Decoded(list, full[from..]) == Decoded(list + [arr], tail)
    ensures full[i] == 1 && list == [] ==> Decoded(list, full[from..]) == list
    ensures full[i] == 1 && list != [] ==> Decoded(list, full[from..]) == Decoded(list + [list[|list| - 1] + arr], tail)
  {
    assert full[from..] == arr + [full[i]] + tail;
    if full[i] == 0 || full[i] == 1 {
      OneTerm(list, arr, full[i], tail);
    }
  }

  lemma NothingLeft(list: seq<Term>, full: seq<Byte>, from: nat)
    requires PlainBetween(full, from, |full|)
    ensures Decoded(list, full[from..]) == list
  {
    NoBoundary(full[from..]);
  }

  /** Up to an index these terms have been read, and from it on there is more to read. */
  ghost predicate ReadUpTo(full: seq<Byte>, from: nat, list: seq<Term>) {
    from <= |full| && Decoded(list, full[from..]) == Decoded([], full)
  }

  lemma ReadOn(full: seq<Byte>, from: nat, i: nat, list: seq<Term>, arr: Term)
    requires PlainBetween(full, from, i) && i < |full| && arr == full[from..i] && ReadUpTo(full, from, list)
    ensures full[i] == 0 ==> ReadUpTo(full, i + 1, list + [arr])
    ensures full[i] == 1 && list == [] ==> Decoded([], full) == list
    ensures full[i] == 1 && list != [] ==> ReadUpTo(full, i + 1, list + [list[|list| - 1] + arr])
    ensures full[i] != 0 && full[i] != 1 ==> PlainBetween(full, from, i + 1)
  {
    NextTerm(list, full, from, i, arr, full[i + 1..]);
  }

  method Decode(full: seq<Byte>) returns (list: seq<Term>)
    requires Countable(|full|)
    ensures list == Decoded([], full)
  {
    list := [];
    var prevWordBoundary: Int32 := 0;
    assert full[0..] == full;
    for i: Int32 := 0 to |full| as Int32
      invariant 0 <= prevWordBoundary <= i
      invariant PlainBetween(full, prevWordBoundary as int, i as int)
      invariant ReadUpTo(full, prevWordBoundary as int, list)
    {
      var arr := full[prevWordBoundary..i];
      ReadOn(full, prevWordBoundary as int, i as int, list, arr);
      if full[i] == 1 {
        if list == [] {
          return list;
        }
        list := list + [list[|list| - 1] + arr];
        prevWordBoundary := i + 1;
        continue;
      }
      if full[i] == 0 {
        list := list + [arr];
        prevWordBoundary := i + 1;
        continue;
      }
    }
    NothingLeft(list, full, prevWordBoundary as int);
  }

  /** The terms whose bytes the codec can tell from its own. */
  ghost predicate AllPlain(terms: seq<Term>) {
    forall t :: t in terms ==> Plain(t)
  }

  lemma Regroup(a: seq<Byte>, b: seq<Byte>, c: seq<Byte>)
    ensures a + b + c == a + (b + c)
  {
  }

  lemma OneRest(list: seq<Term>, term: Term, tail: seq<Byte>)
    requires list != [] && Plain(term)
    ensures Decoded(list, Rest(list[|list| - 1], term) + tail) == Decoded(list + [term], tail)
  {
    var prev := list[|list| - 1];
    if StartsWith(term, prev) {
      assert prev + term[|prev|..] == term;
      OneTerm(list, term[|prev|..], 1, tail);
    } else {
      OneTerm(list, term, 0, tail);
    }
  }

  /** Plain terms come back, in any order and with duplicates. */
  lemma {:induction false} PlainRoundTrip(terms: seq<Term>, k: nat, tail: seq<Byte>)
    requires 0 < k <= |terms| && AllPlain(terms)
    ensures Decoded([], Encoded(terms, k) + tail) == Decoded(terms[..k], tail)
    decreases k
  {
    assert terms[k - 1] in terms;
    if k == 1 {
      assert terms[..1] == [] + [terms[0]];
      OneTerm([], terms[0], 0, tail);
    } else {
      var rest := Rest(terms[k - 2], terms[k - 1]);
      Regroup(Encoded(terms, k - 1), rest, tail);
      PlainRoundTrip(terms, k - 1, rest + tail);
      OneRest(terms[..k - 1], terms[k - 1], tail);
      assert terms[..k] == terms[..k - 1] + [terms[k - 1]];
    }
  }

  /** How many bytes end a term. */
  function Ends(full: seq<Byte>): nat {
    if full == [] then 0 else (if full[0] == 0 || full[0] == 1 then 1 else 0) + Ends(full[1..])
  }

  lemma {:induction false} EndsAdd(a: seq<Byte>, b: seq<Byte>)
    ensures Ends(a + b) == Ends(a) + Ends(b)
  {
    if a == [] {
      assert a + b == b;
    } else {
      assert (a + b)[1..] == a[1..] + b;
      EndsAdd(a[1..], b);
    }
  }

  lemma {:induction false} EndsOfPlain(term: seq<Byte>)
    ensures Ends(term) == 0 <==> Plain(term)
  {
    if term != [] {
      EndsOfPlain(term[1..]);
      assert term == [term[0]] + term[1..];
    }
  }

  /** Each such byte gives a term, unless decoding breaks off at the start. */
  lemma {:induction false} DecodedSize(list: seq<Term>, full: seq<Byte>)
    ensures |Decoded(list, full)| == |list| + Ends(full) || (list == [] && Decoded(list, full) == [])
    decreases |full|
  {
    var i := Boundary(full);
    BoundaryEnds(full);
    EndsOfPlain(full[..i]);
    if i == |full| {
      assert full[..i] == full;
    } else {
      assert full == full[..i] + ([full[i]] + full[i + 1..]);
      EndsAdd(full[..i], [full[i]] + full[i + 1..]);
      if full[i] == 0 {
        DecodedSize(list + [full[..i]], full[i + 1..]);
      } else if list != [] {
        DecodedSize(list + [list[|list| - 1] + full[..i]], full[i + 1..]);
      }
    }
  }

  lemma RestEnds(prev: Term, term: Term)
    ensures Ends(Rest(prev, term)) >= 1
    ensures Plain(prev) && !Plain(term) ==> Ends(Rest(prev, term)) > 1
  {
    var body := if StartsWith(term, prev) then term[|prev|..] else term;
    EndsAdd(body, if StartsWith(term, prev) then [1] else [0]);
    EndsOfPlain(body);
    if StartsWith(term, prev) {
      assert term == prev + term[|prev|..];
    }
  }

  ghost predicate PlainUpTo(terms: seq<Term>, k: nat) {
    k <= |terms| && forall i :: 0 <= i < k ==> Plain(terms[i])
  }

  /** There is one such byte for each term, and more if a term has some of its own. */
  lemma {:induction false} EncodedEnds(terms: seq<Term>, k: nat)
    requires 0 < k <= |terms|
    ensures Ends(Encoded(terms, k)) >= k
    ensures !PlainUpTo(terms, k) ==> Ends(Encoded(terms, k)) > k
    decreases k
  {
    if k == 1 {
      EndsAdd(terms[0], [0]);
      EndsOfPlain(terms[0]);
    } else {
      EncodedEnds(terms, k - 1);
      assert PlainUpTo(terms, k) <==> PlainUpTo(terms, k - 1) && Plain(terms[k - 1]);
      EndsAdd(Encoded(terms, k - 1), Rest(terms[k - 2], terms[k - 1]));
      RestEnds(terms[k - 2], terms[k - 1]);
    }
  }

  lemma {:induction false} EncodedSize(terms: seq<Term>, k: nat)
    requires 0 < k <= |terms|
    ensures |Encoded(terms, k)| >= k
  {
    if k > 1 {
      EncodedSize(terms, k - 1);
    }
  }

  /** A nonempty term list whose encoding can be counted is read back exactly when no term contains byte 0 or byte 1. */
  method RoundTrip(terms: seq<Term>) returns (again: seq<Term>)
    requires terms != [] && Countable(|Encoded(terms, |terms|)|)
    ensures again == terms <==> AllPlain(terms)
  {
    EncodedSize(terms, |terms|);
    var full := Encode(terms);
    again := Decode(full);
    if AllPlain(terms) {
      PlainRoundTrip(terms, |terms|, []);
      NothingMore(terms, full);
    } else {
      EncodedEnds(terms, |terms|);
      assert !PlainUpTo(terms, |terms|);
      DecodedSize([], full);
    }
  }

  lemma NothingMore(terms: seq<Term>, full: seq<Byte>)
    ensures terms[..|terms|] == terms && full + [] == full && Decoded(terms, []) == terms
  {
  }
}
