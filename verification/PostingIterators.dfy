/**
  The posting iterator hierarchy (src/engine/postingiterator.h and its subclasses).

  Every subclass is a kind of one class, so iterators nest to any depth and a call
  to next or skipTo is dispatched on the kind, as the virtual call is.  `Ids` is the
  set an iterator stands for and `cursor` where it is in that set; each kind's own
  fields are tied to the two by Valid().
 */
module PostingIterators {
  import opened Sequences
  import opened IdUtils
  import opened Cursors
  import opened Leapfrogging
  import opened OrMerging
  import opened PhraseMatch
  import opened IdTree
  import opened IdTreeDescent

  datatype Kind = Vector | Positions | Subtree | And | Or | Phrase

  class PostingIterator {
    const kind: Kind
    ghost const Ids: set<Id>
    ghost const Height: nat
    ghost const Repr: set<PostingIterator>
    ghost var cursor: Cursor

    // VectorPostingIterator: m_values; VectorPositionInfoIterator: m_vector;
    // IdTreePostingIterator: m_db, m_idList, m_resultList; m_pos for all three.
    var values: seq<Id>
    var vector: seq<PositionInfo>
    const children: Children
    var idList: seq<Id>
    var resultList: seq<Id>
    var pos: int
    // AndPostingIterator, PhraseAndIterator, OrPostingIterator: m_iterators, m_docId; m_nextId for the last.
    var iterators: seq<PostingIterator>
    var docId: Id
    var nextId: Id

    /** What a Positions iterator knows of each id. */
    ghost const Occurrences: map<Id, seq<nat>>
    /** The forest a Subtree iterator walks. */
    ghost const files: Files

    ghost predicate Valid()
      reads this, Repr
      decreases Height, 1
    {
      this in Repr && Within(Ids, cursor) && Team(iterators, Repr - {this}, Height) &&
      match kind
      case Vector => OnList(values, IdOf, Ids, pos, cursor)
      case Positions => PositionsOk()
      case Subtree => SubtreeOk()
      case And => LeapOk()
      case Phrase => LeapOk()
      case Or => Merged(Ids, SetsOf(iterators), CursorsOf(iterators), docId, nextId, cursor)
    }

    ghost predicate PositionsOk()
      reads this
    {
      OnList(vector, DocIdOf, Ids, pos, cursor) && Occurrences.Keys == Ids &&
      (forall i :: 0 <= i < |vector| ==>
        vector[i].docId in Occurrences && vector[i].positions == Occurrences[vector[i].docId]) &&
      forall y :: y in Occurrences ==> Nondecreasing(Occurrences[y])
    }

    ghost predicate SubtreeOk()
      reads this
    {
      match cursor
      case Start =>
        resultList == [] && pos == -1 && |idList| == 1 && idList[0] != 0 &&
        Forest(children, files) && Ids == Family(files, idList[0])
      case _ => idList == [] && OnList(resultList, IdOf, Ids, pos, cursor)
    }

    /** AndPostingIterator and PhraseAndIterator. */
    ghost predicate LeapOk()
      reads this, iterators
    {
      docId == DocId(cursor) && Selects(kind, Ids, iterators) &&
      InTune(Ids, SetsOf(iterators), CursorsOf(iterators), cursor)
    }

    constructor OfVector(values: seq<Id>)
      requires Ascending(values, IdOf) && 0 !in values
      ensures Valid() && kind == Vector && cursor == Start && fresh(Repr)
      ensures Ids == set y | y in values
    {
      kind, Height, Repr, cursor := Vector, 0, {this}, Start;
      Ids := set y | y in values;
      this.values, pos, iterators := values, -1, [];
    }

    constructor OfPositions(vector: seq<PositionInfo>)
      requires Ascending(vector, DocIdOf)
      requires forall info :: info in vector ==> info.docId > 0 && Nondecreasing(info.positions)
      ensures Valid() && kind == Positions && cursor == Start && fresh(Repr)
      ensures Occurrences == ToMap(vector)
    {
      kind, Height, Repr, cursor := Positions, 0, {this}, Start;
      Ids, Occurrences := ToMap(vector).Keys, ToMap(vector);
      this.vector, pos, iterators := vector, -1, [];
      new;
      ToMapFits(vector);
    }

    constructor OfSubtree(children: Children, ghost files: Files, root: Id)
      requires Forest(children, files) && root != 0
      ensures Valid() && kind == Subtree && cursor == Start && fresh(Repr)
      ensures Ids == Family(files, root)
    {
      kind, Height, Repr, cursor := Subtree, 0, {this}, Start;
      Ids, this.files := Family(files, root), files;
      this.children, idList, resultList, pos, iterators := children, [root], [], -1, [];
    }

    /** The common part of the three constructors over children: nothing has been moved yet. */
    constructor Over(kind: Kind, ghost all: set<Id>, its: seq<PostingIterator>, ghost repr: set<PostingIterator>,
                     ghost height: nat)
      ensures this.kind == kind && Ids == all && Height == height && iterators == its && docId == 0
      ensures cursor == Start && Repr == {this} + repr && fresh(this)
    {
      this.kind, Ids, Height, cursor, Repr := kind, all, height, Start, {this} + repr;
      iterators, docId := its, 0;
    }

    static method NewOver(kind: Kind, ghost all: set<Id>, its: seq<PostingIterator>,
                          ghost repr: set<PostingIterator>, ghost height: nat)
      returns (it: PostingIterator)
      requires Team(its, repr, height) && InStep(CursorsOf(its), Start)
      ensures it.kind == kind && it.Ids == all && it.Height == height && it.iterators == its && it.docId == 0
      ensures it.cursor == Start && it.Repr == {it} + repr && it.Repr - {it} == repr && fresh(it)
      ensures Team(its, repr, height) && CursorsOf(its) == old(CursorsOf(its))
    {
      it := new PostingIterator.Over(kind, all, its, repr, height);
      assert it !in repr;
      assert CursorsOf(its) == old(CursorsOf(its));
    }

    static method MakeLeap(kind: Kind, ghost all: set<Id>, its: seq<PostingIterator>,
                           ghost repr: set<PostingIterator>, ghost height: nat)
      returns (it: PostingIterator)
      requires Team(its, repr, height) && InStep(CursorsOf(its), Start)
      requires (kind == And || kind == Phrase) && Selects(kind, all, its)
      ensures it.Valid() && it.kind == kind && it.cursor == Start && it.Height == height && it.Repr == {it} + repr &&
        fresh(it)
      ensures it.Ids == all
    {
      TeamWithin(its, repr, height);
      StartInTune(all, SetsOf(its), CursorsOf(its));
      it := NewOver(kind, all, its, repr, height);
      it.LeapIsValid();
    }

    /** AndPostingIterator's constructor: one null child empties it. */
    static method MakeAnd(its: seq<PostingIterator?>, ghost repr: set<PostingIterator>, ghost height: nat)
      returns (it: PostingIterator)
      requires Team(NonNull(its), repr, height) && InStep(CursorsOf(NonNull(its)), Start)
      ensures it.Valid() && it.kind == And && it.cursor == Start && it.Height == height && it.Repr == {it} + repr &&
        fresh(it)
      ensures null in its ==> it.Ids == {}
      ensures null !in its ==> IsIntersection(it.Ids, SetsOf(NonNull(its)))
    {
      var used := if null in its then [] else NonNull(its);
      CommonIsIntersection(SetsOf(used));
      it := MakeLeap(And, CommonIds(SetsOf(used)), used, repr, height);
    }

    /** PhraseAndIterator's constructor: the same, over position lists. */
    static method MakePhrase(its: seq<PostingIterator?>, ghost repr: set<PostingIterator>, ghost height: nat)
      returns (it: PostingIterator)
      requires Team(NonNull(its), repr, height) && InStep(CursorsOf(NonNull(its)), Start)
      requires forall i :: 0 <= i < |NonNull(its)| ==> NonNull(its)[i].kind == Positions
      ensures it.Valid() && it.kind == Phrase && it.cursor == Start && it.Height == height && it.Repr == {it} + repr &&
        fresh(it)
      ensures null in its ==> it.Ids == {}
      ensures null !in its ==> IsPhrase(it.Ids, NonNull(its))
    {
      var used := if null in its then [] else NonNull(its);
      CommonIsIntersection(SetsOf(used));
      it := MakeLeap(Phrase, PhraseIds(used), used, repr, height);
    }

    /** OrPostingIterator's constructor: null children are dropped, the others advanced once. */
    static method MakeOr(its: seq<PostingIterator?>, ghost repr: set<PostingIterator>, ghost height: nat)
      returns (it: PostingIterator)
      requires Team(NonNull(its), repr, height) && InStep(CursorsOf(NonNull(its)), Start)
      modifies repr
      ensures it.Valid() && it.kind == Or && it.cursor == Start && it.Height == height && it.Repr == {it} + repr &&
        fresh(it)
      ensures IsUnion(it.Ids, SetsOf(NonNull(its)))
    {
      var used := NonNull(its);
      AllIsUnion(SetsOf(used));
      ghost var all := AllIds(SetsOf(used));
      var next := OpenChildren(used, repr, height, all);
      it := NewOverOr(all, used, repr, height, next);
      it.OrIsValid();
    }

    static method NewOverOr(ghost all: set<Id>, its: seq<PostingIterator>, ghost repr: set<PostingIterator>,
                            ghost height: nat, next: Id)
      returns (it: PostingIterator)
      requires Team(its, repr, height)
      ensures it.kind == Or && it.Ids == all && it.Height == height && it.iterators == its && it.docId == 0 &&
        it.nextId == next
      ensures it.cursor == Start && it.Repr == {it} + repr && it.Repr - {it} == repr && fresh(it)
      ensures Team(its, repr, height) && CursorsOf(its) == old(CursorsOf(its))
    {
      it := new PostingIterator.Over(Or, all, its, repr, height);
      assert it !in repr;
      assert CursorsOf(its) == old(CursorsOf(its));
      it.nextId := next;
    }

    /** The constructor's loop: a first next on every child; the lowest id found comes first. */
    static method OpenChildren(its: seq<PostingIterator>, ghost repr: set<PostingIterator>, ghost height: nat,
                               ghost all: set<Id>)
      returns (next: Id)
      requires Team(its, repr, height) && IsUnion(all, SetsOf(its)) && InStep(CursorsOf(its), Start)
      modifies repr
      decreases height, 1
      ensures Team(its, repr, height) && 0 !in all
      ensures OrCovers(all, its, 0) && Lowest(CursorsOf(its), |its|, next)
    {
      TeamWithin(its, repr, height);
      assert Opening(all, SetsOf(its), CursorsOf(its), 0);
      next := 0;
      for i := 0 to |its|
        invariant Team(its, repr, height)
        invariant Opening(all, SetsOf(its), CursorsOf(its), i)
        invariant Lowest(CursorsOf(its), i, next)
      {
        ghost var ps := CursorsOf(its);
        var docId := NextChild(its, repr, height, i);
        OpeningSteps(all, SetsOf(its), ps, CursorsOf(its), i);
        LowestGrows(ps, CursorsOf(its), i, next);
        next := Lower(next, docId);
      }
    }

    /** docId(), which only reads. */
    function CurrentId(): (r: Id)
      requires Valid()
      reads this, Repr
      ensures r == DocId(cursor)
    {
      match kind
      case Vector => if pos < 0 || pos >= |values| then 0 else values[pos]
      case Positions => if pos < 0 || pos >= |vector| then 0 else vector[pos].docId
      case Subtree => if pos >= 0 && pos < |resultList| then resultList[pos] else 0
      case _ => docId
    }

    /** VectorPositionInfoIterator::positions. */
    function CurrentPositions(): seq<nat>
      reads this
    {
      if pos < 0 || pos >= |vector| then [] else vector[pos].positions
    }

    method Next() returns (r: Id)
      requires Valid()
      modifies Repr
      decreases Height, 8
      ensures Valid() && Stepped(Ids, old(cursor), cursor) && r == DocId(cursor)
    {
      match kind
      case Vector => r := VectorNext();
      case Positions => r := PositionsNext();
      case Subtree => r := SubtreeNext();
      case And => r := AndNext();
      case Phrase => r := PhraseNext();
      case Or => r := OrNext();
    }

    method SkipTo(id: Id) returns (r: Id)
      requires Valid()
      modifies Repr
      decreases Height, 10
      ensures Valid() && Skipped(Ids, old(cursor), id, cursor) && r == DocId(cursor)
    {
      match kind
      case And => r := AndSkipTo(id);
      case Phrase => r := PhraseSkipTo(id);
      case Or => r := OrSkipTo(id);
      case _ => r := DefaultSkipTo(id);
    }

    /** PostingIterator::skipTo: call next until the id is large enough or there is none. */
    method DefaultSkipTo(id: Id) returns (r: Id)
      requires Valid()
      modifies Repr
      decreases Height, 9
      ensures Valid() && Skipped(Ids, old(cursor), id, cursor) && r == DocId(cursor)
    {
      var currentId := CurrentId();
      while currentId < id
        invariant Valid() && currentId == DocId(cursor)
        invariant Passing(Ids, old(cursor), id, cursor)
        decreases MaxOf(Ids) - currentId
      {
        ghost var q := cursor;
        currentId := Next();
        PassingStep(Ids, old(cursor), id, q, cursor);
        if currentId == 0 {
          return 0;
        }
      }
      PassingEnds(Ids, old(cursor), id, cursor);
      return currentId;
    }

    method VectorNext() returns (id: Id)
      requires Valid() && kind == Vector
      modifies this
      ensures Valid() && Stepped(Ids, old(cursor), cursor) && id == DocId(cursor)
    {
      if !cursor.End? {
        ListStep(values, IdOf, Ids, pos, cursor);
      }
      if pos >= |values| - 1 {
        pos := |values|;
        values := [];
        cursor := End;
        return 0;
      }
      pos := pos + 1;
      cursor := At(values[pos]);
      return values[pos];
    }

    method PositionsNext() returns (id: Id)
      requires Valid() && kind == Positions
      modifies this
      ensures Valid() && Stepped(Ids, old(cursor), cursor) && id == DocId(cursor)
    {
      if !cursor.End? {
        ListStep(vector, DocIdOf, Ids, pos, cursor);
      }
      pos := pos + 1;
      if pos >= |vector| {
        pos := |vector|;
        vector := [];
        cursor := End;
        return 0;
      }
      cursor := At(vector[pos].docId);
      return vector[pos].docId;
    }

    method SubtreeNext() returns (id: Id)
      requires Valid() && kind == Subtree
      modifies this
      ensures Valid() && Stepped(Ids, old(cursor), cursor) && id == DocId(cursor)
    {
      if resultList == [] && idList == [] {
        return 0;
      }
      if resultList == [] {
        FirstResults();
      } else {
        NextResult();
      }
      if pos < |resultList| {
        cursor := At(resultList[pos]);
        return resultList[pos];
      } else {
        cursor := End;
        return 0;
      }
    }

    /** The results are on the next id, or at the end. */
    ghost predicate OnNext()
      reads this
    {
      var q := if 0 <= pos < |resultList| then At(resultList[pos]) else End;
      idList == [] && OnList(resultList, IdOf, Ids, pos, q) && Stepped(Ids, cursor, q) && Within(Ids, q)
    }

    /** The first call drains the worklist and sorts what it yields. */
    method FirstResults()
      requires kind == Subtree && cursor == Start && SubtreeOk()
      modifies this`idList, this`resultList, this`pos
      ensures pos == 0 && OnNext()
    {
      var found := Descend(children, files, idList[0]);
      SortDistinct(found);
      ListStep(Sort(found), IdOf, Ids, -1, Start);
      idList, resultList := [], Sort(found);
      pos := 0;
    }

    /** Later calls move on, and clear the results once they have been at the end before. */
    method NextResult()
      requires kind == Subtree && cursor != Start && SubtreeOk() && Within(Ids, cursor)
      modifies this`resultList, this`pos
      ensures pos >= 0 && OnNext()
    {
      if !cursor.End? {
        ListStep(resultList, IdOf, Ids, pos, cursor);
      }
      if pos < |resultList| {
        pos := pos + 1;
      } else {
        resultList := [];
      }
    }

    method AndSkipTo(id: Id) returns (r: Id)
      requires Valid() && kind == And
      modifies Repr
      decreases Height, 5
      ensures Valid() && Skipped(Ids, old(cursor), id, cursor) && r == DocId(cursor)
    {
      if iterators == [] {
        docId := 0;
        if id > 0 { cursor := End; }
        return 0;
      }
      ghost var q;
      r, q := AndSkip(iterators, Repr - {this}, Height, Ids, cursor, id);
      SetLeap(r, q);
      LeapIsValid();
    }

    method AndNext() returns (r: Id)
      requires Valid() && kind == And
      modifies Repr
      decreases Height, 5
      ensures Valid() && Stepped(Ids, old(cursor), cursor) && r == DocId(cursor)
    {
      if iterators == [] {
        docId := 0;
        cursor := End;
        return 0;
      }
      r := AndStep(iterators, Repr - {this}, Height, Ids, cursor);
      SetLeap(r, Land(r));
      LeapIsValid();
    }

    /** Records where the loop has landed; no child is touched. */
    method SetLeap(id: Id, ghost p: Cursor)
      requires this in Repr && Team(iterators, Repr - {this}, Height)
      modifies this`docId, this`cursor
      ensures docId == id && cursor == p
      ensures Team(iterators, Repr - {this}, Height) && CursorsOf(iterators) == old(CursorsOf(iterators))
    {
      docId, cursor := id, p;
      assert CursorsOf(iterators) == old(CursorsOf(iterators));
    }

    lemma LeapIsValid()
      requires (kind == And || kind == Phrase) && this in Repr && Team(iterators, Repr - {this}, Height)
      requires Within(Ids, cursor) && LeapOk()
      ensures Valid()
    {
    }

    static method AndSkip(its: seq<PostingIterator>, ghost repr: set<PostingIterator>, ghost height: nat,
                          ghost all: set<Id>, ghost p: Cursor, id: Id)
      returns (r: Id, ghost q: Cursor)
      requires Team(its, repr, height) && its != [] && Within(all, p)
      requires IsIntersection(all, SetsOf(its)) && InTune(all, SetsOf(its), CursorsOf(its), p)
      modifies repr
      decreases height, 4
      ensures Team(its, repr, height)
      ensures InTune(all, SetsOf(its), CursorsOf(its), q) && Skipped(all, p, id, q) && Within(all, q) && r == DocId(q)
    {
      ghost var ids, ps0 := SetsOf(its), CursorsOf(its);
      SkipStarts(all, ids, ps0, p, id);
      r := AndSeek(its, repr, height, all, Left(all, p, id), id);
      q := if r == id == 0 then p else Land(r);
      SkipLands(all, ids, ps0, CursorsOf(its), p, id, r, q);
    }

    /** next: a step of the first child, then the loop of skipTo. */
    static method AndStep(its: seq<PostingIterator>, ghost repr: set<PostingIterator>, ghost height: nat,
                          ghost all: set<Id>, ghost p: Cursor)
      returns (r: Id)
      requires Team(its, repr, height) && its != [] && Within(all, p)
      requires IsIntersection(all, SetsOf(its)) && InTune(all, SetsOf(its), CursorsOf(its), p)
      modifies repr
      decreases height, 4
      ensures Team(its, repr, height)
      ensures InTune(all, SetsOf(its), CursorsOf(its), Land(r)) && Stepped(all, p, Land(r)) && Within(all, Land(r))
    {
      ghost var ids, ps0 := SetsOf(its), CursorsOf(its);
      var id := NextChild(its, repr, height, 0);
      ghost var ps1 := CursorsOf(its);
      StepKeepsAhead(all, ids, ps0, ps1, p);
      r := AndSeek(its, repr, height, all, Left(all, p, DocId(p) + 1), id);
      NextLands(all, ids, ps0, ps1, CursorsOf(its), p, r, Land(r));
    }

    /** The loop of AndPostingIterator::skipTo, from any child positions that still lead to the wanted ids. */
    static method AndSeek(its: seq<PostingIterator>, ghost repr: set<PostingIterator>, ghost height: nat,
                          ghost all: set<Id>, ghost want: set<Id>, id0: Id)
      returns (r: Id)
      requires Team(its, repr, height) && its != [] && IsIntersection(all, SetsOf(its))
      requires Ahead(SetsOf(its), CursorsOf(its), want) && AllFrom(want, id0)
      modifies repr
      decreases height, 3
      ensures Team(its, repr, height)
      ensures Sought(SetsOf(its), old(CursorsOf(its)), CursorsOf(its), want, id0, r)
      ensures r > 0 ==> r in all
    {
      var id := id0;
      ghost var ids, ps0 := SetsOf(its), CursorsOf(its);
      while true
        invariant id0 <= id
        invariant Team(its, repr, height)
        invariant Seeking(ids, ps0, CursorsOf(its), want, id0, id)
        decreases Top(ids) - id
      {
        ghost var ps := CursorsOf(its);
        var lowerBound := Leapfrog(its, repr, height, ids, ps, want, id);
        SeekRound(ids, ps0, ps, CursorsOf(its), want, id0, id, lowerBound);
        if lowerBound == 0 || lowerBound == id {
          TeamWithin(its, repr, height);
          if lowerBound > 0 {
            LandingIsCommon(all, ids, CursorsOf(its), lowerBound);
          }
          return lowerBound;
        }
        id := lowerBound;
      }
    }

    method PhraseSkipTo(id: Id) returns (r: Id)
      requires Valid() && kind == Phrase
      modifies Repr
      decreases Height, 6
      ensures Valid() && Skipped(Ids, old(cursor), id, cursor) && r == DocId(cursor)
    {
      if iterators == [] {
        docId := 0;
        if id > 0 { cursor := End; }
        return 0;
      }
      ghost var q;
      r, q := PhraseSkip(iterators, Repr - {this}, Height, Ids, cursor, id);
      SetLeap(r, q);
      LeapIsValid();
    }

    method PhraseNext() returns (r: Id)
      requires Valid() && kind == Phrase
      modifies Repr
      decreases Height, 6
      ensures Valid() && Stepped(Ids, old(cursor), cursor) && r == DocId(cursor)
    {
      if iterators == [] {
        docId := 0;
        cursor := End;
        return 0;
      }
      r := PhraseStep(iterators, Repr - {this}, Height, Ids, cursor);
      SetLeap(r, Land(r));
      LeapIsValid();
    }

    static method PhraseSkip(its: seq<PostingIterator>, ghost repr: set<PostingIterator>, ghost height: nat,
                             ghost all: set<Id>, ghost p: Cursor, id: Id)
      returns (r: Id, ghost q: Cursor)
      requires Team(its, repr, height) && its != [] && Within(all, p)
      requires IsPhrase(all, its) && InTune(all, SetsOf(its), CursorsOf(its), p)
      modifies repr
      decreases height, 5
      ensures Team(its, repr, height)
      ensures InTune(all, SetsOf(its), CursorsOf(its), q) && Skipped(all, p, id, q) && Within(all, q) && r == DocId(q)
    {
      ghost var ids, ps0 := SetsOf(its), CursorsOf(its);
      SkipStarts(all, ids, ps0, p, id);
      r := PhraseSeek(its, repr, height, all, p, id, id);
      q := if r == id == 0 then p else Land(r);
      SkipLands(all, ids, ps0, CursorsOf(its), p, id, r, q);
    }

    /** next: a step of the first child, then the loop of skipTo. */
    static method PhraseStep(its: seq<PostingIterator>, ghost repr: set<PostingIterator>, ghost height: nat,
                             ghost all: set<Id>, ghost p: Cursor)
      returns (r: Id)
      requires Team(its, repr, height) && its != [] && Within(all, p)
      requires IsPhrase(all, its) && InTune(all, SetsOf(its), CursorsOf(its), p)
      modifies repr
      decreases height, 5
      ensures Team(its, repr, height)
      ensures InTune(all, SetsOf(its), CursorsOf(its), Land(r)) && Stepped(all, p, Land(r)) && Within(all, Land(r))
    {
      ghost var ids, ps0 := SetsOf(its), CursorsOf(its);
      var id := NextChild(its, repr, height, 0);
      ghost var ps1 := CursorsOf(its);
      StepKeepsAhead(all, ids, ps0, ps1, p);
      r := PhraseSeek(its, repr, height, all, p, DocId(p) + 1, id);
      NextLands(all, ids, ps0, ps1, CursorsOf(its), p, r, Land(r));
    }

    /** The loop of PhraseAndIterator::skipTo; the wanted ids are those of all from low on, ahead of p. */
    static method PhraseSeek(its: seq<PostingIterator>, ghost repr: set<PostingIterator>, ghost height: nat,
                             ghost all: set<Id>, ghost p: Cursor, ghost low: Id, id0: Id)
      returns (r: Id)
      requires Team(its, repr, height) && its != [] && IsPhrase(all, its)
      requires Ahead(SetsOf(its), CursorsOf(its), Left(all, p, low)) && AllFrom(Left(all, p, low), id0)
      modifies repr
      decreases height, 4
      ensures Team(its, repr, height)
      ensures Sought(SetsOf(its), old(CursorsOf(its)), CursorsOf(its), Left(all, p, low), id0, r)
      ensures r > 0 ==> r in all
    {
      var id := id0;
      ghost var ids, ps0, want, stuck := SetsOf(its), CursorsOf(its), Left(all, p, low), false;
      while true
        invariant Team(its, repr, height)
        invariant PhraseLoop(ids, ps0, CursorsOf(its), want, id0, id, stuck)
        decreases !stuck, Top(ids) - id
      {
        var done;
        done, id, stuck := PhraseRound(its, repr, height, all, ids, ps0, want, id0, id, stuck);
        if done {
          return id;
        }
      }
    }

    /** One pass through the loop; done if it returns. */
    static method PhraseRound(its: seq<PostingIterator>, ghost repr: set<PostingIterator>, ghost height: nat,
                              ghost all: set<Id>, ghost ids: seq<set<Id>>, ghost ps0: seq<Cursor>,
                              ghost want: set<Id>, ghost id0: Id, id: Id, ghost stuck: bool)
      returns (done: bool, r: Id, ghost nowStuck: bool)
      requires Team(its, repr, height) && its != [] && IsPhrase(all, its) && ids == SetsOf(its) && want <= all
      requires PhraseLoop(ids, ps0, CursorsOf(its), want, id0, id, stuck)
      modifies repr
      decreases height, 3
      ensures Team(its, repr, height)
      ensures done ==> Sought(ids, ps0, CursorsOf(its), want, id0, r) && (r > 0 ==> r in all)
      ensures !done ==>
        PhraseLoop(ids, ps0, CursorsOf(its), want, id0, r, nowStuck) && !stuck && (nowStuck || id < r <= Top(ids))
    {
      nowStuck := false;
      ghost var ps := CursorsOf(its);
      r := Leapfrog(its, repr, height, ids, ps, want, id);
      if stuck {
        StuckRound(ids, ps0, ps, CursorsOf(its), want, id0, r);
      } else {
        SeekRound(ids, ps0, ps, CursorsOf(its), want, id0, id, r);
      }
      if r == 0 {
        return true, 0, false;
      }
      if r == id {
        var found := MatchHere(its, repr, height, all, id);
        if found {
          return true, r, false;
        }
        r := Reject(its, repr, height, ids, ps0, want, id0, id);
        nowStuck := r == 0;
      }
      done := false;
    }

    /** checkIfPositionsMatch, with all children on id. */
    static method MatchHere(its: seq<PostingIterator>, ghost repr: set<PostingIterator>, ghost height: nat,
                            ghost all: set<Id>, ghost id: Id)
      returns (found: bool)
      requires Team(its, repr, height) && its != [] && IsPhrase(all, its) && AllAt(CursorsOf(its), id)
      ensures found <==> id in all
    {
      var lists := PositionsOf(its, |its|);
      OnOneId(its, repr, height, id);
      found := CheckIfPositionsMatch(lists);
    }

    /** The children met on an id where the phrase does not occur: step the first one. */
    static method Reject(its: seq<PostingIterator>, ghost repr: set<PostingIterator>, ghost height: nat,
                         ghost ids: seq<set<Id>>, ghost ps0: seq<Cursor>, ghost want: set<Id>,
                         ghost id0: Id, ghost id: Id)
      returns (r: Id)
      requires Team(its, repr, height) && its != [] && ids == SetsOf(its) && id > 0 && id !in want
      requires Sought(ids, ps0, CursorsOf(its), want, id0, id)
      modifies repr
      decreases height, 2
      ensures Team(its, repr, height)
      ensures PhraseLoop(ids, ps0, CursorsOf(its), want, id0, r, r == 0) && (r > 0 ==> id < r <= Top(ids))
    {
      ghost var ps := CursorsOf(its);
      r := NextChild(its, repr, height, 0);
      TeamWithin(its, repr, height);
      SeekRejects(ids, ps0, ps, CursorsOf(its), want, id0, id);
    }

    method OrSkipTo(id: Id) returns (r: Id)
      requires Valid() && kind == Or
      modifies Repr
      decreases Height, 6
      ensures Valid() && Skipped(Ids, old(cursor), id, cursor) && r == DocId(cursor)
    {
      if docId >= id {
        SkipBackIsIdle(Ids, cursor, id, cursor);
        return docId;
      }
      var its, next;
      r, its, next := OrSeek(iterators, Repr - {this}, Height, Ids, cursor, docId, nextId, id);
      SetOr(r, its, next, Land(r));
      OrIsValid();
    }

    /** Records what the loops have found; no child is touched. */
    method SetOr(id: Id, its: seq<PostingIterator>, next: Id, ghost p: Cursor)
      requires this in Repr && Team(its, Repr - {this}, Height)
      modifies this`docId, this`iterators, this`nextId, this`cursor
      ensures docId == id && iterators == its && nextId == next && cursor == p
      ensures Team(its, Repr - {this}, Height) && CursorsOf(its) == old(CursorsOf(its))
    {
      docId, iterators, nextId, cursor := id, its, next, p;
      assert CursorsOf(its) == old(CursorsOf(its));
    }

    lemma OrIsValid()
      requires kind == Or && this in Repr && Team(iterators, Repr - {this}, Height)
      requires Merged(Ids, SetsOf(iterators), CursorsOf(iterators), docId, nextId, cursor)
      ensures Valid()
    {
    }

    /** The part of OrPostingIterator::skipTo after its first test. */
    static method OrSeek(its0: seq<PostingIterator>, ghost repr: set<PostingIterator>, ghost height: nat,
                         ghost all: set<Id>, ghost p: Cursor, docId0: Id, next0: Id, id: Id)
      returns (docId: Id, its: seq<PostingIterator>, next: Id)
      requires Team(its0, repr, height) && Merged(all, SetsOf(its0), CursorsOf(its0), docId0, next0, p) && docId0 < id
      modifies repr
      decreases height, 5
      ensures Team(its, repr, height) && Merged(all, SetsOf(its), CursorsOf(its), docId, next, Land(docId))
      ensures Skipped(all, p, id, Land(docId))
    {
      if next0 == 0 {
        if !p.End? {
          LowestIsNext(all, SetsOf(its0), CursorsOf(its0), docId0, 0);
        }
        return 0, its0, 0;
      }
      docId, its, next := OrLand(its0, repr, height, all, docId0, next0, id);
    }

    /** The rest of OrPostingIterator::skipTo, once there is a next id and it is known to lie ahead. */
    static method OrLand(its0: seq<PostingIterator>, ghost repr: set<PostingIterator>, ghost height: nat,
                         ghost all: set<Id>, ghost low0: Id, next0: Id, id: Id)
      returns (docId: Id, its: seq<PostingIterator>, next: Id)
      requires Team(its0, repr, height)
      requires OrCovers(all, its0, low0) && Lowest(CursorsOf(its0), |its0|, next0) && 0 < next0 && low0 < id
      modifies repr
      decreases height, 4
      ensures Team(its, repr, height)
      ensures docId == 0 ==> next == 0 && forall y :: y in all ==> y < id
      ensures docId > 0 ==> docId in all && id <= docId && forall y :: y in all && id <= y ==> docId <= y
      ensures docId > 0 ==> OrCovers(all, its, docId) && Lowest(CursorsOf(its), |its|, next)
    {
      ghost var low;
      docId, low := FastForward(its0, repr, height, all, low0, next0, id);
      if docId == 0 {
        return 0, its0, 0;
      }
      its, next := AdvanceLowest(its0, repr, height, all, low, docId);
    }

    /** If the id asked for lies further ahead, every child goes to its lowest id that is at least that. */
    static method FastForward(its: seq<PostingIterator>, ghost repr: set<PostingIterator>, ghost height: nat,
                              ghost all: set<Id>, ghost low0: Id, next0: Id, id: Id)
      returns (docId: Id, ghost low: Id)
      requires Team(its, repr, height) && OrCovers(all, its, low0)
      requires Lowest(CursorsOf(its), |its|, next0) && 0 < next0 && low0 < id
      modifies repr
      decreases height, 3
      ensures Team(its, repr, height) && OrCovers(all, its, low) && Lowest(CursorsOf(its), |its|, docId)
      ensures docId == 0 ==> forall y :: y in all ==> y < id
      ensures docId > 0 ==> low < docId && docId in all && id <= docId
      ensures docId > 0 ==> forall y :: y in all && id <= y ==> docId <= y
    {
      docId, low := next0, low0;
      LowestIsNext(all, SetsOf(its), CursorsOf(its), low, docId);
      if id > docId {
        docId := SkipEach(its, repr, height, all, low, id);
        low := id - 1;
        LowestIsNext(all, SetsOf(its), CursorsOf(its), low, docId);
      }
    }

    method OrNext() returns (r: Id)
      requires Valid() && kind == Or
      modifies Repr
      decreases Height, 7
      ensures Valid() && Stepped(Ids, old(cursor), cursor) && r == DocId(cursor)
    {
      if !cursor.End? {
        LowestIsNext(Ids, SetsOf(iterators), CursorsOf(iterators), docId, nextId);
      }
      if nextId != 0 {
        r := OrSkipTo(nextId);
      } else {
        docId := 0;
        cursor := End;
        r := 0;
      }
    }

    /** skipTo's first loop: fast forward every child to at least id, and find the lowest of them. */
    static method SkipEach(its: seq<PostingIterator>, ghost repr: set<PostingIterator>, ghost height: nat,
                           ghost all: set<Id>, ghost low: Id, id: Id)
      returns (next: Id)
      requires Team(its, repr, height) && OrCovers(all, its, low) && low < id
      modifies repr
      decreases height, 2
      ensures Team(its, repr, height) && OrCovers(all, its, id - 1)
      ensures Lowest(CursorsOf(its), |its|, next)
    {
      ghost var ids := SetsOf(its);
      next := 0;
      for i := 0 to |its|
        invariant Team(its, repr, height)
        invariant Skipping(all, ids, CursorsOf(its), low, id, i, next)
      {
        next := SkipOne(its, repr, height, all, ids, low, id, i, next);
      }
    }

    static method SkipOne(its: seq<PostingIterator>, ghost repr: set<PostingIterator>, ghost height: nat,
                          ghost all: set<Id>, ghost ids: seq<set<Id>>, ghost low: Id, id: Id, i: nat, next0: Id)
      returns (next: Id)
      requires Team(its, repr, height) && i < |its| && ids == SetsOf(its)
      requires Skipping(all, ids, CursorsOf(its), low, id, i, next0)
      modifies repr
      decreases height, 1
      ensures Team(its, repr, height)
      ensures Skipping(all, ids, CursorsOf(its), low, id, i + 1, next)
    {
      ghost var ps := CursorsOf(its);
      var docId := SkipChild(its, repr, height, i, id);
      next := Lower(next0, docId);
      SkippingStep(all, ids, ps, CursorsOf(its), low, id, i, next0);
    }

    /** skipTo's second loop: step every child that is on docId, and prune the exhausted ones. */
    static method AdvanceLowest(its0: seq<PostingIterator>, ghost repr: set<PostingIterator>, ghost height: nat,
                                ghost all: set<Id>, ghost low: Id, docId: Id)
      returns (its: seq<PostingIterator>, next: Id)
      requires Team(its0, repr, height) && OrCovers(all, its0, low) && low < docId
      requires Lowest(CursorsOf(its0), |its0|, docId)
      modifies repr
      decreases height, 2
      ensures Team(its, repr, height) && OrCovers(all, its, docId)
      ensures Lowest(CursorsOf(its), |its|, next)
    {
      LowestRaises(all, SetsOf(its0), CursorsOf(its0), low, docId);
      its, next := its0, 0;
      var i := 0;
      while i < |its|
        invariant 0 <= i <= |its|
        invariant Team(its, repr, height) && OrPart(all, its, docId, i, next)
        decreases |its| - i
      {
        var id := StepIfOn(its, repr, height, all, docId, i, next);
        if id == 0 {
          its := Prune(its, repr, height, all, docId, i, next);
        } else {
          next := Lower(next, id);
          i := i + 1;
        }
      }
    }

    /** Steps child i if it is on docId. */
    static method StepIfOn(its: seq<PostingIterator>, ghost repr: set<PostingIterator>, ghost height: nat,
                           ghost all: set<Id>, docId: Id, i: nat, ghost next: Id)
      returns (id: Id)
      requires Team(its, repr, height) && OrPart(all, its, docId, i, next) && i < |its|
      modifies repr
      decreases height, 1
      ensures Team(its, repr, height)
      ensures if id == 0 then OrEnded(all, its, docId, i, next)
              else OrPart(all, its, docId, i + 1, Lower(next, id))
    {
      ghost var ps := CursorsOf(its);
      id := its[i].CurrentId();
      if id == docId {
        id := NextChild(its, repr, height, i);
      }
      StepCovers(all, its[i].Ids, ps[i], docId - 1, docId, its[i].cursor);
      CoveringSteps(all, SetsOf(its), ps, CursorsOf(its), docId, i, docId - 1);
      LowestGrows(ps, CursorsOf(its), i, next);
    }

    /** Drops child i, which is exhausted. */
    static method Prune(its: seq<PostingIterator>, ghost repr: set<PostingIterator>, ghost height: nat,
                        ghost all: set<Id>, ghost docId: Id, i: nat, ghost next: Id)
      returns (rest: seq<PostingIterator>)
      requires Team(its, repr, height) && OrEnded(all, its, docId, i, next)
      ensures |rest| == |its| - 1 && Team(rest, repr, height) && OrPart(all, rest, docId, i, next)
    {
      rest := WithoutAt(its, i);
      TeamWithout(its, repr, height, i);
      WithoutSets(its, i);
      WithoutCursors(its, i);
      CoveringWithout(all, SetsOf(its), CursorsOf(its), docId, i, docId - 1);
      CoveredWithout(all, SetsOf(its), docId, i);
      LowestOfPrefix(CursorsOf(its), CursorsOf(rest), i, next);
    }

    /** skipTo on child i, seen from the whole list: only its cursor moves. */
    static method SkipChild(its: seq<PostingIterator>, ghost repr: set<PostingIterator>, ghost height: nat, i: nat,
                            id: Id)
      returns (r: Id)
      requires Team(its, repr, height) && i < |its|
      modifies repr
      decreases height, 0
      ensures Team(its, repr, height)
      ensures CursorsOf(its) == old(CursorsOf(its))[i := its[i].cursor]
      ensures Skipped(its[i].Ids, old(its[i].cursor), id, its[i].cursor) && r == DocId(its[i].cursor)
      ensures Within(its[i].Ids, old(its[i].cursor))
    {
      r := its[i].SkipTo(id);
    }

    /** One child's part of the round. */
    static method LeapChild(its: seq<PostingIterator>, ghost repr: set<PostingIterator>, ghost height: nat,
                            ghost ids: seq<set<Id>>, ghost ps0: seq<Cursor>, ghost want: set<Id>,
                            ghost id: Id, low: Id, i: nat)
      returns (r: Id)
      requires Team(its, repr, height) && i < |its| && ids == SetsOf(its)
      requires PartRound(ids, ps0, CursorsOf(its), want, id, low, i)
      modifies repr
      decreases height, 1, 0
      ensures Team(its, repr, height)
      ensures r == 0 ==> Round(ids, ps0, CursorsOf(its), want, id, 0)
      ensures r > 0 ==> PartRound(ids, ps0, CursorsOf(its), want, id, r, i + 1)
    {
      ghost var ps := CursorsOf(its);
      r := SkipChild(its, repr, height, i, low);
      if r == 0 {
        RoundFails(ids, ps0, ps, CursorsOf(its), want, id, low, i);
      } else {
        RoundGoesOn(ids, ps0, ps, CursorsOf(its), want, id, low, i);
      }
    }

    /** next on child i, seen from the whole list. */
    static method NextChild(its: seq<PostingIterator>, ghost repr: set<PostingIterator>, ghost height: nat, i: nat)
      returns (r: Id)
      requires Team(its, repr, height) && i < |its|
      modifies repr
      decreases height, 0
      ensures Team(its, repr, height)
      ensures CursorsOf(its) == old(CursorsOf(its))[i := its[i].cursor]
      ensures Stepped(its[i].Ids, old(its[i].cursor), its[i].cursor) && r == DocId(its[i].cursor)
    {
      r := its[i].Next();
    }

    /** One round of the leapfrog: every child skips to the largest id seen so far. */
    static method Leapfrog(its: seq<PostingIterator>, ghost repr: set<PostingIterator>, ghost height: nat,
                           ghost ids: seq<set<Id>>, ghost ps0: seq<Cursor>, ghost want: set<Id>, id: Id)
      returns (lowerBound: Id)
      requires Team(its, repr, height) && its != [] && ids == SetsOf(its) && ps0 == CursorsOf(its)
      requires Ahead(ids, ps0, want) && AllFrom(want, id)
      modifies repr
      decreases height, 2
      ensures Team(its, repr, height)
      ensures Round(ids, ps0, CursorsOf(its), want, id, lowerBound)
    {
      lowerBound := id;
      for i := 0 to |its|
        invariant Leaping(its, repr, height, ids, ps0, want, id, lowerBound, i)
      {
        lowerBound := LeapNext(its, repr, height, ids, ps0, want, id, lowerBound, i);
        if lowerBound == 0 {
          return;
        }
      }
      LeptAll(its, repr, height, ids, ps0, want, id, lowerBound);
    }

    static method LeapNext(its: seq<PostingIterator>, ghost repr: set<PostingIterator>, ghost height: nat,
                           ghost ids: seq<set<Id>>, ghost ps0: seq<Cursor>, ghost want: set<Id>,
                           ghost id: Id, low: Id, i: nat)
      returns (r: Id)
      requires Leaping(its, repr, height, ids, ps0, want, id, low, i) && i < |its|
      modifies repr
      decreases height, 1, 1
      ensures r == 0 ==> Team(its, repr, height) && Round(ids, ps0, CursorsOf(its), want, id, 0)
      ensures r > 0 ==> Leaping(its, repr, height, ids, ps0, want, id, r, i + 1)
    {
      RoundStarts(ids, ps0, want, id);
      r := LeapChild(its, repr, height, ids, ps0, want, id, low, i);
    }
  }

  /** A round of the leapfrog has come to child i. */
  ghost predicate Leaping(its: seq<PostingIterator>, repr: set<PostingIterator>, height: nat, ids: seq<set<Id>>,
                          ps0: seq<Cursor>, want: set<Id>, id: Id, low: Id, i: nat)
    reads repr
  {
    Team(its, repr, height) && ids == SetsOf(its) && |ps0| == |ids| && Ahead(ids, ps0, want) && AllFrom(want, id) &&
    match i
    case 0 => low == id && CursorsOf(its) == ps0
    case _ => low > 0 && PartRound(ids, ps0, CursorsOf(its), want, id, low, i)
  }

  lemma LeptAll(its: seq<PostingIterator>, repr: set<PostingIterator>, height: nat, ids: seq<set<Id>>,
                ps0: seq<Cursor>, want: set<Id>, id: Id, low: Id)
    requires its != [] && Leaping(its, repr, height, ids, ps0, want, id, low, |its|)
    ensures Team(its, repr, height) && Round(ids, ps0, CursorsOf(its), want, id, low)
  {
    RoundComplete(ids, ps0, CursorsOf(its), want, id, low);
  }

  /** The children of one iterator: valid, smaller, and sharing no state. */
  ghost predicate Team(its: seq<PostingIterator>, repr: set<PostingIterator>, height: nat)
    reads repr
    decreases height, 0
  {
    (forall i :: 0 <= i < |its| ==>
      its[i] in repr && its[i].Repr <= repr && its[i].Height < height && its[i].Valid()) &&
    (forall i, j :: 0 <= i < j < |its| ==> its[i].Repr !! its[j].Repr)
  }

  function PositionsOf(its: seq<PostingIterator>, n: nat): (lists: seq<seq<nat>>)
    requires n <= |its|
    reads its
    ensures |lists| == n && forall i :: 0 <= i < n ==> lists[i] == its[i].CurrentPositions()
  {
    if n == 0 then [] else PositionsOf(its, n - 1) + [its[n - 1].CurrentPositions()]
  }

  /** The position lists of id, one for each of the first n children. */
  ghost function ListsAt(its: seq<PostingIterator>, n: nat, id: Id): (lists: seq<seq<nat>>)
    requires n <= |its|
    ensures |lists| == n
    ensures forall i :: 0 <= i < n ==> lists[i] == if id in its[i].Occurrences then its[i].Occurrences[id] else []
  {
    if n == 0 then [] else
      var last := its[n - 1];
      ListsAt(its, n - 1, id) + [if id in last.Occurrences then last.Occurrences[id] else []]
  }

  /** all are the ids that every child has and where the phrase occurs; without children there are none. */
  ghost predicate IsPhrase(all: set<Id>, its: seq<PostingIterator>) {
    (forall i :: 0 <= i < |its| ==> its[i].kind == Positions) &&
    forall y :: y in all <==>
      its != [] && (forall i :: 0 <= i < |its| ==> y in its[i].Ids) && PhraseOccurs(ListsAt(its, |its|, y))
  }

  /** With every child on id, the current positions are the positions at id. */
  lemma OnOneId(its: seq<PostingIterator>, repr: set<PostingIterator>, height: nat, id: Id)
    requires Team(its, repr, height) && AllAt(CursorsOf(its), id)
    requires forall i :: 0 <= i < |its| ==> its[i].kind == Positions
    ensures PositionsOf(its, |its|) == ListsAt(its, |its|, id)
    ensures forall i :: 0 <= i < |its| ==> id in its[i].Ids
    ensures forall i :: 0 <= i < |its| ==> Nondecreasing(PositionsOf(its, |its|)[i])
  {
    forall i | 0 <= i < |its| ensures OnId(its[i], id) {
      assert CursorsOf(its)[i] == At(id);
      PositionsOnId(its[i], id);
    }
    AllOnId(its, id);
  }

  /** The iterator stands on id, with the positions there. */
  ghost predicate OnId(it: PostingIterator, id: Id)
    reads it
  {
    id in it.Ids && id in it.Occurrences && it.CurrentPositions() == it.Occurrences[id] &&
    Nondecreasing(it.CurrentPositions())
  }

  lemma PositionsOnId(it: PostingIterator, id: Id)
    requires it.Valid() && it.kind == Positions && it.cursor == At(id)
    ensures OnId(it, id)
  {
  }

  lemma AllOnId(its: seq<PostingIterator>, id: Id)
    requires forall i :: 0 <= i < |its| ==> OnId(its[i], id)
    ensures PositionsOf(its, |its|) == ListsAt(its, |its|, id)
    ensures forall i :: 0 <= i < |its| ==> id in its[i].Ids
    ensures forall i :: 0 <= i < |its| ==> Nondecreasing(PositionsOf(its, |its|)[i])
  {
    forall i | 0 <= i < |its|
      ensures PositionsOf(its, |its|)[i] == ListsAt(its, |its|, id)[i] && Nondecreasing(PositionsOf(its, |its|)[i])
    {
      assert OnId(its[i], id);
    }
    assert forall i :: 0 <= i < |its| ==> OnId(its[i], id) && id in its[i].Ids;
  }

  /** What the leapfrogging kinds stand for. */
  ghost predicate Selects(kind: Kind, all: set<Id>, its: seq<PostingIterator>) {
    if kind == Phrase then IsPhrase(all, its) else IsIntersection(all, SetsOf(its))
  }

  function ToMap(vector: seq<PositionInfo>): map<Id, seq<nat>> {
    if vector == [] then map[] else
      var n := |vector| - 1;
      ToMap(vector[..n])[vector[n].docId := vector[n].positions]
  }

  lemma {:induction false} ToMapHasKeys(vector: seq<PositionInfo>, y: Id)
    ensures y in ToMap(vector) <==> HasKey(vector, DocIdOf, y)
  {
    if vector != [] {
      var n := |vector| - 1;
      ToMapHasKeys(vector[..n], y);
      if HasKey(vector, DocIdOf, y) {
        var i :| 0 <= i < |vector| && DocIdOf(vector[i]) == y;
        assert i < n ==> vector[..n][i] == vector[i];
      }
      if HasKey(vector[..n], DocIdOf, y) {
        var i :| 0 <= i < n && DocIdOf(vector[..n][i]) == y;
        assert vector[i] == vector[..n][i];
      }
    }
  }

  lemma {:induction false} ToMapAt(vector: seq<PositionInfo>, i: nat)
    requires Ascending(vector, DocIdOf) && i < |vector|
    ensures vector[i].docId in ToMap(vector) && ToMap(vector)[vector[i].docId] == vector[i].positions
  {
    var n := |vector| - 1;
    if i < n {
      ToMapAt(vector[..n], i);
      assert DocIdOf(vector[i]) < DocIdOf(vector[n]);
    }
  }

  lemma ToMapFits(vector: seq<PositionInfo>)
    requires Ascending(vector, DocIdOf) && forall info :: info in vector ==> Nondecreasing(info.positions)
    ensures Lists(vector, DocIdOf, ToMap(vector).Keys)
    ensures forall i :: 0 <= i < |vector| ==>
      vector[i].docId in ToMap(vector) && vector[i].positions == ToMap(vector)[vector[i].docId]
    ensures forall y :: y in ToMap(vector) ==> Nondecreasing(ToMap(vector)[y])
  {
    forall i: nat | i < |vector|
      ensures vector[i].docId in ToMap(vector) && vector[i].positions == ToMap(vector)[vector[i].docId]
    {
      ToMapAt(vector, i);
    }
    forall y ensures y in ToMap(vector) <==> HasKey(vector, DocIdOf, y) {
      ToMapHasKeys(vector, y);
    }
    forall y | y in ToMap(vector) ensures Nondecreasing(ToMap(vector)[y]) {
      ToMapHasKeys(vector, y);
      var i :| 0 <= i < |vector| && DocIdOf(vector[i]) == y;
      ToMapAt(vector, i);
      assert vector[i] in vector;
    }
  }

  /** The children still cover the ids of all above low. */
  ghost predicate OrCovers(all: set<Id>, its: seq<PostingIterator>, low: Id)
    reads its
  {
    Covering(all, SetsOf(its), CursorsOf(its), low, |its|, low) && Covered(all, SetsOf(its), low)
  }

  /** In the second loop: the first i children have been looked at, next is their lowest id. */
  ghost predicate OrPart(all: set<Id>, its: seq<PostingIterator>, docId: Id, i: nat, next: Id)
    reads its
  {
    docId > 0 && Covering(all, SetsOf(its), CursorsOf(its), docId, i, docId - 1) && Covered(all, SetsOf(its), docId) &&
    Lowest(CursorsOf(its), i, next)
  }

  /** Child i has been looked at and is exhausted. */
  ghost predicate OrEnded(all: set<Id>, its: seq<PostingIterator>, docId: Id, i: nat, next: Id)
    reads its
  {
    docId > 0 && i < |its| && its[i].cursor.End? &&
    Covering(all, SetsOf(its), CursorsOf(its), docId, i + 1, docId - 1) && Covered(all, SetsOf(its), docId) &&
    Lowest(CursorsOf(its), i, next)
  }

  /** A new child with its own footprint can join. */
  lemma TeamGrows(its: seq<PostingIterator>, repr: set<PostingIterator>, height: nat, it: PostingIterator, more: nat)
    requires Team(its, repr, height) && it.Valid() && it.Repr !! repr && height <= more && it.Height < more
    ensures Team(its + [it], repr + it.Repr, more)
  {
  }

  lemma TeamWithout(its: seq<PostingIterator>, repr: set<PostingIterator>, height: nat, n: nat)
    requires Team(its, repr, height) && n < |its|
    ensures Team(WithoutAt(its, n), repr, height)
  {
    var rest := WithoutAt(its, n);
    forall i, j | 0 <= i < j < |rest| ensures rest[i].Repr !! rest[j].Repr {
      assert rest[i] == its[if i < n then i else i + 1];
      assert rest[j] == its[if j < n then j else j + 1];
    }
    forall i | 0 <= i < |rest|
      ensures rest[i] in repr && rest[i].Repr <= repr && rest[i].Height < height && rest[i].Valid()
    {
      assert rest[i] == its[if i < n then i else i + 1];
    }
  }

  lemma WithoutSets(its: seq<PostingIterator>, n: nat)
    requires n < |its|
    ensures SetsOf(WithoutAt(its, n)) == WithoutAt(SetsOf(its), n)
  {
  }

  lemma WithoutCursors(its: seq<PostingIterator>, n: nat)
    requires n < |its|
    ensures CursorsOf(WithoutAt(its, n)) == WithoutAt(CursorsOf(its), n)
  {
  }

  function NonNull(its: seq<PostingIterator?>): (r: seq<PostingIterator>)
    ensures null !in its ==> r == its
  {
    if its == [] then [] else
      var last := its[|its| - 1];
      assert its == its[..|its| - 1] + [last];
      NonNull(its[..|its| - 1]) + if last == null then [] else [last]
  }

  ghost function PhraseIds(its: seq<PostingIterator>): (all: set<Id>)
    requires forall i :: 0 <= i < |its| ==> its[i].kind == Positions
    ensures IsPhrase(all, its)
  {
    CommonIsIntersection(SetsOf(its));
    set y | y in CommonIds(SetsOf(its)) && PhraseOccurs(ListsAt(its, |its|, y))
  }

  ghost function CommonIds(ids: seq<set<Id>>): set<Id> {
    if ids == [] then {} else if |ids| == 1 then ids[0] else CommonIds(ids[..|ids| - 1]) * ids[|ids| - 1]
  }

  lemma {:induction false} CommonIsIntersection(ids: seq<set<Id>>)
    ensures IsIntersection(CommonIds(ids), ids)
  {
    if |ids| > 1 {
      CommonIsIntersection(ids[..|ids| - 1]);
    }
  }

  ghost function AllIds(ids: seq<set<Id>>): set<Id> {
    if ids == [] then {} else AllIds(ids[..|ids| - 1]) + ids[|ids| - 1]
  }

  lemma {:induction false} AllIsUnion(ids: seq<set<Id>>)
    ensures IsUnion(AllIds(ids), ids)
  {
    if ids != [] {
      AllIsUnion(ids[..|ids| - 1]);
    }
  }

  lemma TeamWithin(its: seq<PostingIterator>, repr: set<PostingIterator>, height: nat)
    requires Team(its, repr, height)
    ensures AllWithin(SetsOf(its), CursorsOf(its))
  {
  }

  ghost function CursorsOf(its: seq<PostingIterator>): (ps: seq<Cursor>)
    reads its
    ensures |ps| == |its| && forall i {:trigger its[i]} :: 0 <= i < |its| ==> ps[i] == its[i].cursor
  {
    FirstCursors(its, |its|)
  }

  ghost function FirstCursors(its: seq<PostingIterator>, n: nat): (ps: seq<Cursor>)
    requires n <= |its|
    reads its
    ensures |ps| == n && forall i :: 0 <= i < n ==> ps[i] == its[i].cursor
  {
    if n == 0 then [] else FirstCursors(its, n - 1) + [its[n - 1].cursor]
  }

  ghost function SetsOf(its: seq<PostingIterator>): (ids: seq<set<Id>>)
    ensures |ids| == |its| && forall i {:trigger its[i]} :: 0 <= i < |its| ==> ids[i] == its[i].Ids
  {
    FirstSets(its, |its|)
  }

  ghost function FirstSets(its: seq<PostingIterator>, n: nat): (ids: seq<set<Id>>)
    requires n <= |its|
    ensures |ids| == n && forall i :: 0 <= i < n ==> ids[i] == its[i].Ids
  {
    if n == 0 then [] else FirstSets(its, n - 1) + [its[n - 1].Ids]
  }
}
