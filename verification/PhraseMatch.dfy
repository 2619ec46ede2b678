/**
  PhraseAndIterator::checkIfPositionsMatch (src/engine/phraseanditerator.cpp):
  given one position list per phrase term, does term i occur at n + i for some n?
 */
module PhraseMatch {
  import opened IdUtils

  /** The phrase starts at position n. */
  ghost predicate PhraseAt(lists: seq<seq<nat>>, n: nat) {
    forall i :: 0 <= i < |lists| ==> n + i in lists[i]
  }

  ghost predicate PhraseOccurs(lists: seq<seq<nat>>) {
    exists n: nat :: PhraseAt(lists, n)
  }

  /** No phrase start is below lowerBound, and none needs an element before the offsets. */
  ghost predicate Sound(lists: seq<seq<nat>>, offsets: seq<nat>, lowerBound: nat)
    requires |offsets| == |lists|
  {
    forall n: nat :: PhraseAt(lists, n) ==>
      lowerBound <= n &&
      forall i, k :: 0 <= i < |lists| && 0 <= k < offsets[i] && k < |lists[i]| ==> lists[i][k] < n + i
  }

  /** The position list of term i, scanned from off, for the first position not below lowerBound + i. */
  method Advance(positions: seq<nat>, off0: nat, bound: nat) returns (off: nat)
    ensures off0 <= off
    ensures off0 <= |positions| ==> off <= |positions|
    ensures forall k :: off0 <= k < off && k < |positions| ==> positions[k] < bound
    ensures off < |positions| ==> bound <= positions[off]
  {
    off := off0;
    while off < |positions|
      invariant off0 <= off
      invariant off0 <= |positions| ==> off <= |positions|
      invariant forall k :: off0 <= k < off && k < |positions| ==> positions[k] < bound
    {
      if positions[off] >= bound {
        break;
      }
      off := off + 1;
    }
  }

  lemma AdvanceSound(lists: seq<seq<nat>>, offsets: seq<nat>, lowerBound: nat, i: nat, off: nat)
    requires |offsets| == |lists| && i < |lists| && Sound(lists, offsets, lowerBound)
    requires Nondecreasing(lists[i])
    requires offsets[i] <= off
    requires forall k :: offsets[i] <= k < off && k < |lists[i]| ==> lists[i][k] < lowerBound + i
    ensures off >= |lists[i]| ==> !PhraseOccurs(lists)
    ensures off < |lists[i]| && lowerBound + i <= lists[i][off] ==> Sound(lists, offsets[i := off], lists[i][off] - i)
  {
    forall n: nat | PhraseAt(lists, n)
      ensures off < |lists[i]| && lists[i][off] <= n + i
      ensures forall k :: 0 <= k < off && k < |lists[i]| ==> lists[i][k] < n + i
    {
      assert lowerBound <= n;
      assert n + i in lists[i];
      var k :| 0 <= k < |lists[i]| && lists[i][k] == n + i;
      assert k >= offsets[i];
      assert k >= off;
    }
  }

  lemma StartIsInFirst(lists: seq<seq<nat>>, n: nat)
    requires |lists| > 0
    ensures PhraseAt(lists, n) ==> n in lists[0]
  {
    if PhraseAt(lists, n) {
      assert n + 0 in lists[0];
    }
  }

  lemma ExhaustedMeansNone(lists: seq<seq<nat>>, offsets: seq<nat>, lowerBound: nat)
    requires |offsets| == |lists| > 0 && offsets[0] >= |lists[0]| && Sound(lists, offsets, lowerBound)
    ensures !PhraseOccurs(lists)
  {
    forall n: nat ensures !PhraseAt(lists, n) {
      StartIsInFirst(lists, n);
    }
  }

  /**
    True exactly when the phrase occurs, although no offset ever moves backwards.
    A true answer is right for any lists; a false one needs them nondecreasing.
   */
  method CheckIfPositionsMatch(lists: seq<seq<nat>>) returns (found: bool)
    requires |lists| > 0
    ensures found ==> PhraseOccurs(lists)
    ensures (forall i :: 0 <= i < |lists| ==> Nondecreasing(lists[i])) ==> (found <==> PhraseOccurs(lists))
  {
    ghost var sorted := forall i :: 0 <= i < |lists| ==> Nondecreasing(lists[i]);
    var offsets: seq<nat> := seq(|lists|, _ => 0);
    var lowerBound: nat := 0;
    while offsets[0] < |lists[0]|
      invariant |offsets| == |lists|
      invariant offsets[0] <= |lists[0]|
      invariant sorted ==> Sound(lists, offsets, lowerBound)
      decreases |lists[0]| - offsets[0]
    {
      ghost var start := offsets[0];
      for i := 0 to |lists|
        invariant |offsets| == |lists|
        invariant sorted ==> Sound(lists, offsets, lowerBound)
        invariant start <= offsets[0] < |lists[0]|
        invariant i > 0 ==> lists[0][offsets[0]] <= lowerBound
        invariant i > 0 && lists[0][offsets[0]] == lowerBound ==>
          forall j :: 0 <= j < i ==> lowerBound + j in lists[j]
      {
        var off := Advance(lists[i], offsets[i], lowerBound + i);
        if sorted {
          AdvanceSound(lists, offsets, lowerBound, i, off);
        }
        if off >= |lists[i]| {
          return false;
        }
        lowerBound := lists[i][off] - i;
        offsets := offsets[i := off];
      }
      if lowerBound == lists[0][offsets[0]] {
        assert PhraseAt(lists, lowerBound);
        return true;
      }
      offsets := offsets[0 := offsets[0] + 1];
    }
    if sorted {
      ExhaustedMeansNone(lists, offsets, lowerBound);
    }
    return false;
  }
}
