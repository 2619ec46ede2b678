/**
  Lists of differences and the position codec (src/codecs/coding.cpp,
  src/codecs/positioncodec.cpp).
 */
module PositionCodecs {
  import opened Bytes
  import opened Coding

  /** An entry of a position list: a 64-bit id and 32-bit positions. */
  datatype Entry = Entry(docId: nat, positions: seq<Word>)

  const TWO_TO_THE_64 := 0x1_0000_0000_0000_0000

  /** n - v in 32 bits. */
  function Difference(n: Word, v: Word): Word {
    (n - v) % TWO_TO_THE_32
  }

  /** Each value as a varint of its difference to the one before; v stands before the first. */
  function Deltas(v: Word, values: seq<Word>): seq<Byte>
    decreases |values|
  {
    if values == [] then [] else Varint(Difference(values[0], v)) + Deltas(values[0], values[1..])
  }

  /** Of ascending values the differences themselves are written. */
  lemma DifferenceIs(n: Word, v: Word)
    ensures v <= n ==> Difference(n, v) == n - v
    ensures v > n ==> Difference(n, v) == TWO_TO_THE_32 - (v - n)
  {
  }

  function LastOr(v: Word, values: seq<Word>): Word {
    if values == [] then v else values[|values| - 1]
  }

  lemma {:induction false} DeltasAppend(v: Word, values: seq<Word>, x: Word)
    ensures Deltas(v, values + [x]) == Deltas(v, values) + Varint(Difference(x, LastOr(v, values)))
    decreases |values|
  {
    if values != [] {
      assert (values + [x])[1..] == values[1..] + [x];
      DeltasAppend(values[0], values[1..], x);
    }
  }

  lemma DeltasPrefix(values: seq<Word>, i: nat)
    requires i < |values|
    ensures Deltas(0, values[..i + 1]) == Deltas(0, values[..i]) + Varint(Difference(values[i], LastOr(0, values[..i])))
    ensures LastOr(0, values[..i + 1]) == values[i]
  {
    assert values[..i + 1] == values[..i] + [values[i]];
    DeltasAppend(0, values[..i], values[i]);
  }

  lemma {:induction false} DeltasSplit(v: Word, values: seq<Word>, k: nat)
    requires k <= |values|
    ensures Deltas(v, values) == Deltas(v, values[..k]) + Deltas(LastOr(v, values[..k]), values[k..])
    decreases |values|
  {
    if k > 0 {
      assert values[..k][1..] == values[1..][..k - 1] && values[k..] == values[1..][k - 1..];
      DeltasSplit(values[0], values[1..], k - 1);
      assert k > 1 ==> values[..k][k - 1] == values[1..][..k - 1][k - 2];
    }
  }

  /** putDifferentialVarInt32's bytes: the size in 32 bits, then the differences. */
  function Differential(values: seq<Word>): seq<Byte> {
    Varint(|values| % TWO_TO_THE_32) + Deltas(0, values)
  }

  lemma {:induction false} DeltasSize(v: Word, values: seq<Word>)
    ensures |Deltas(v, values)| <= 5 * |values|
    decreases |values|
  {
    if values != [] {
      WordVarint(Difference(values[0], v), []);
      DeltasSize(values[0], values[1..]);
    }
  }

  lemma {:induction false} DeltasAtLeast(v: Word, values: seq<Word>)
    ensures |Deltas(v, values)| >= |values|
    decreases |values|
  {
    if values != [] {
      DeltasAtLeast(values[0], values[1..]);
    }
  }

  /** What a C++ int holds. */
  type Int = x: int | -0x8000_0000 <= x < 0x8000_0000

  /** The write position stays within an int, at the end and so all the way. */
  predicate PositionFits(values: seq<Word>) {
    |Differential(values)| < 0x8000_0000
  }

  /** Below some 400 million values it always does, from some 2 billion on never. */
  lemma WhenPositionFits(values: seq<Word>)
    ensures |values| < 0x1999_9999 ==> PositionFits(values)
    ensures |values| >= 0x7FFF_FFFF ==> !PositionFits(values)
  {
    WordVarint(|values| % TWO_TO_THE_32, []);
    DeltasSize(0, values);
    DeltasAtLeast(0, values);
  }

  /** The write position before value i. */
  ghost function PositionAt(values: seq<Word>, i: nat): nat
    requires i <= |values|
  {
    |Varint(|values| % TWO_TO_THE_32) + Deltas(0, values[..i])|
  }

  /** It is an int all the way exactly if it is one at the end. */
  lemma FitsThroughout(values: seq<Word>)
    ensures PositionFits(values) <==> forall i :: 0 <= i <= |values| ==> PositionAt(values, i) < 0x8000_0000
  {
    forall i | 0 <= i <= |values| ensures PositionAt(values, i) <= |Differential(values)| {
      DeltasSplit(0, values, i);
    }
    assert values[..|values|] == values;
    assert PositionAt(values, |values|) == |Differential(values)|;
  }

  lemma CountFits(values: seq<Word>)
    requires PositionFits(values)
    ensures |values| < 0x8000_0000
  {
    DeltasAtLeast(0, values);
  }

  lemma SmallRemainder(n: nat)
    requires n < 0x8000_0000
    ensures n % TWO_TO_THE_32 == n
  {
  }

  lemma SizeFits(values: seq<Word>)
    requires PositionFits(values)
    ensures |values| < 0x8000_0000 && |Varint(|values|)| <= 5
    ensures Differential(values) == Varint(|values|) + Deltas(0, values)
  {
    CountFits(values);
    SmallRemainder(|values|);
    WordVarint(|values|, []);
  }

  /** The next difference, and room for it. */
  lemma NextFits(values: seq<Word>, i: nat, v: Word)
    requires PositionFits(values) && i < |values| && v == LastOr(0, values[..i])
    ensures Deltas(0, values[..i + 1]) == Deltas(0, values[..i]) + Varint(Difference(values[i], v))
    ensures values[i] == LastOr(0, values[..i + 1])
    ensures |Varint(|values|)| + |Deltas(0, values[..i])| + |Varint(Difference(values[i], v))| < 0x8000_0000
  {
    SizeFits(values);
    DeltasPrefix(values, i);
    DeltasSplit(0, values, i + 1);
  }

  /** putVarint32Internal. */
  method PutVarint32Internal(dst: array<Byte>, v: Word, pos: Int) returns (pos': Int)
    requires 0 <= pos && pos + 5 <= dst.Length && pos + |Varint(v)| < 0x8000_0000
    modifies dst
    ensures pos <= pos' <= pos + 5 && dst[..pos'] == old(dst[..pos]) + Varint(v)
  {
    WordVarint(v, []);
    var n := EncodeVarint32Internal(dst, pos, v);
    pos' := pos + n;
    assert dst[..][..pos'] == dst[..pos'];
  }

  /** QByteArray::resize: what fits is kept. */
  method Resize(storage: array<Byte>, n: nat) returns (r: array<Byte>)
    ensures fresh(r) && r.Length == n
    ensures forall i :: 0 <= i < n && i < storage.Length ==> r[i] == storage[i]
  {
    r := new Byte[n](i requires 0 <= i reads storage => if i < storage.Length then storage[i] else 0);
  }

  /**
    putDifferentialVarInt32: the scratch buffer of five bytes for each value and for the
    size is never left, and what is appended is the list of differences, whatever the
    buffer held before.
   */
  method PutDifferentialVarInt32(temporaryStorage: array<Byte>, dst: seq<Byte>, values: seq<Word>)
    returns (storage: array<Byte>, r: seq<Byte>)
    requires PositionFits(values)
    ensures fresh(storage) && r == dst + Differential(values)
  {
    storage := Resize(temporaryStorage, (|values| + 1) * 5);
    SizeFits(values);
    var pos: Int := PutVarint32Internal(storage, |values|, 0);
    var v: Word := 0;
    for i := 0 to |values|
      invariant 0 <= pos <= 5 * (i + 1) && v == LastOr(0, values[..i]) && WrittenSoFar(storage[..pos], values, i)
    {
      pos := PutNext(storage, values, i, v, pos);
      v := values[i];
    }
    assert values[..|values|] == values;
    r := dst + storage[..pos];
  }

  /** The scratch buffer holds the size and the first i differences. */
  ghost predicate WrittenSoFar(bytes: seq<Byte>, values: seq<Word>, i: nat)
    requires i <= |values|
  {
    |values| < 0x8000_0000 && bytes == Varint(|values|) + Deltas(0, values[..i])
  }

  method PutNext(storage: array<Byte>, values: seq<Word>, i: nat, v: Word, pos: Int) returns (pos': Int)
    requires PositionFits(values) && i < |values| && storage.Length == (|values| + 1) * 5 && 0 <= pos <= 5 * (i + 1)
    requires v == LastOr(0, values[..i]) && WrittenSoFar(storage[..pos], values, i)
    modifies storage
    ensures pos <= pos' <= 5 * (i + 2) && values[i] == LastOr(0, values[..i + 1])
    ensures WrittenSoFar(storage[..pos'], values, i + 1)
  {
    NextFits(values, i, v);
    pos' := PutVarint32Internal(storage, Difference(values[i], v), pos);
  }

  /** `count` differences read back and summed up in 32 bits. */
  function Undelta(bytes: seq<Byte>, count: nat, v: Word): Reading<seq<Word>>
    decreases count
  {
    if count == 0 then Read([], bytes) else
      match Truncated(Unvarint(bytes, 5))
      case NoValue => NoValue
      case Read(n, rest) =>
        var x: Word := (n + v) % TWO_TO_THE_32;
        match Undelta(rest, count - 1, x)
        case NoValue => NoValue
        case Read(xs, rest') => Read([x] + xs, rest')
  }

  function Undifferential(bytes: seq<Byte>): Reading<seq<Word>> {
    match Truncated(Unvarint(bytes, 5))
    case NoValue => NoValue
    case Read(size, rest) => Undelta(rest, size, 0)
  }

  /** Values already decoded in front of a reading. */
  function Behind(values: seq<Word>, r: Reading<seq<Word>>): Reading<seq<Word>> {
    match r
    case NoValue => NoValue
    case Read(xs, rest) => Read(values + xs, rest)
  }

  lemma BehindNothing(r: Reading<seq<Word>>)
    ensures Behind([], r) == r
  {
    assert r.Read? ==> [] + r.value == r.value;
  }

  lemma UndeltaStep(values: seq<Word>, bytes: seq<Byte>, count: nat, v: Word, n: Word, rest: seq<Byte>)
    requires count > 0 && Truncated(Unvarint(bytes, 5)) == Read(n, rest)
    ensures Behind(values, Undelta(bytes, count, v)) ==
      Behind(values + [(n + v) % TWO_TO_THE_32], Undelta(rest, count - 1, (n + v) % TWO_TO_THE_32))
  {
    var x: Word := (n + v) % TWO_TO_THE_32;
    var r := Undelta(rest, count - 1, x);
    if r.Read? {
      assert values + ([x] + r.value) == values + [x] + r.value;
    }
  }

  /** getDifferentialVarInt32. */
  method GetDifferentialVarInt32(p: seq<Byte>) returns (r: Reading<seq<Word>>)
    ensures r == Undifferential(p)
  {
    var size := GetVarint32Ptr(p);
    if size.NoValue? {
      return NoValue;
    }
    var q := size.rest;
    var values: seq<Word> := [];
    var v: Word := 0;
    BehindNothing(Undelta(q, size.value, 0));
    while |values| < size.value
      invariant |values| <= size.value
      invariant Undifferential(p) == Behind(values, Undelta(q, size.value - |values|, v))
    {
      var n := GetVarint32Ptr(q);
      if n.NoValue? {
        return NoValue;
      }
      UndeltaStep(values, q, size.value - |values|, v, n.value, n.rest);
      v := (n.value + v) % TWO_TO_THE_32;
      values := values + [v];
      q := n.rest;
    }
    assert values + [] == values;
    return Read(values, q);
  }

  lemma WordRead(v: Word, rest: seq<Byte>)
    ensures Truncated(Unvarint(Varint(v) + rest, 5)) == Read(v, rest)
  {
    WordVarint(v, rest);
    TruncatedWord(Unvarint(Varint(v) + rest, 5), v, rest);
  }

  lemma TruncatedWord(r: Reading<nat>, v: Word, rest: seq<Byte>)
    requires r == Read(v, rest)
    ensures Truncated(r) == Read(v, rest)
  {
  }

  lemma DifferenceAdds(n: Word, v: Word)
    ensures (Difference(n, v) + v) % TWO_TO_THE_32 == n
  {
  }

  /** Differences sum up again, whether the values ascend or not. */
  lemma {:induction false} UndeltaDeltas(v: Word, values: seq<Word>, rest: seq<Byte>)
    ensures Undelta(Deltas(v, values) + rest, |values|, v) == Read(values, rest)
    decreases |values|
  {
    if values == [] {
      assert Deltas(v, values) + rest == rest;
    } else {
      var d := Difference(values[0], v);
      var tail := Deltas(values[0], values[1..]) + rest;
      assert Deltas(v, values) + rest == Varint(d) + tail;
      WordRead(d, tail);
      DifferenceAdds(values[0], v);
      UndeltaStep([], Varint(d) + tail, |values|, v, d, tail);
      BehindNothing(Undelta(Varint(d) + tail, |values|, v));
      UndeltaDeltas(values[0], values[1..], rest);
      assert [] + [values[0]] + values[1..] == values;
    }
  }

  /** Any list that can be written is read back. */
  lemma DifferentialRoundTrip(values: seq<Word>, rest: seq<Byte>)
    requires PositionFits(values)
    ensures Undifferential(Differential(values) + rest) == Read(values, rest)
  {
    DeltasAtLeast(0, values);
    assert Differential(values) + rest == Varint(|values|) + (Deltas(0, values) + rest);
    WordRead(|values|, Deltas(0, values) + rest);
    UndeltaDeltas(0, values, rest);
  }

  /** putFixed64: the eight bytes of an id, in memory order. */
  function Fixed(v: nat, size: nat): (r: seq<Byte>)
    ensures |r| == size
  {
    if size == 0 then [] else [v % 256] + Fixed(v / 256, size - 1)
  }

  /** decodeFixed64. */
  function Unfixed(bytes: seq<Byte>): nat {
    if bytes == [] then 0 else bytes[0] + 256 * Unfixed(bytes[1..])
  }

  /** v has at most that many bytes. */
  predicate FitsBytes(v: nat, size: nat)
    decreases v
  {
    v == 0 || (size > 0 && FitsBytes(v / 256, size - 1))
  }

  lemma {:induction false} UnfixedFixed(v: nat, size: nat)
    requires FitsBytes(v, size)
    ensures Unfixed(Fixed(v, size)) == v
  {
    if size > 0 {
      assert Fixed(v, size)[1..] == Fixed(v / 256, size - 1);
      UnfixedFixed(v / 256, size - 1);
    }
  }

  lemma IdFits(v: nat)
    requires v < TWO_TO_THE_64
    ensures FitsBytes(v, 8)
  {
    var a := v / 0x1_0000_0000;
    assert v / 256 / 256 / 256 / 256 == a && a < 0x1_0000_0000;
    WordFitsBytes(a);
    assert FitsBytes(v / 256 / 256 / 256, 5);
    assert FitsBytes(v / 256 / 256, 6);
    assert FitsBytes(v / 256, 7);
  }

  lemma WordFitsBytes(a: Word)
    ensures FitsBytes(a, 4)
  {
    assert a / 256 / 256 / 256 / 256 == 0;
    assert FitsBytes(a / 256 / 256 / 256, 1);
    assert FitsBytes(a / 256 / 256, 2);
    assert FitsBytes(a / 256, 3);
  }

  function EntryBytes(e: Entry): seq<Byte> {
    Fixed(e.docId, 8) + Differential(e.positions)
  }

  function ListBytes(list: seq<Entry>): seq<Byte> {
    if list == [] then [] else EntryBytes(list[0]) + ListBytes(list[1..])
  }

  lemma {:induction false} ListBytesAppend(list: seq<Entry>, e: Entry)
    ensures ListBytes(list + [e]) == ListBytes(list) + EntryBytes(e)
  {
    if list != [] {
      assert (list + [e])[1..] == list[1..] + [e];
      ListBytesAppend(list[1..], e);
    }
  }

  /** 64-bit ids, and positions that can be written. */
  ghost predicate Encodable(list: seq<Entry>) {
    forall e :: e in list ==> e.docId < TWO_TO_THE_64 && PositionFits(e.positions)
  }

  /** PositionCodec::encode: one scratch buffer serves all entries. */
  method Encode(list: seq<Entry>) returns (data: seq<Byte>)
    requires Encodable(list)
    ensures data == ListBytes(list)
  {
    data := [];
    var temporaryStorage := new Byte[0];
    for i := 0 to |list|
      invariant data == ListBytes(list[..i])
    {
      assert list[i] in list;
      ListBytesAppend(list[..i], list[i]);
      assert list[..i + 1] == list[..i] + [list[i]];
      data := data + Fixed(list[i].docId, 8);
      temporaryStorage, data := PutDifferentialVarInt32(temporaryStorage, data, list[i].positions);
    }
    assert list[..|list|] == list;
  }

  /** What decoding answers; data that breaks off reads as nothing. */
  function ListOf(data: seq<Byte>): seq<Entry> {
    match ListIn(data)
    case NoValue => []
    case Read(list, _) => list
  }

  function ListIn(data: seq<Byte>): Reading<seq<Entry>>
    decreases |data|
  {
    if data == [] then Read([], [])
    else if |data| < 8 then NoValue
    else
      match Undifferential(data[8..])
      case NoValue => NoValue
      case Read(positions, rest) =>
        if |rest| >= |data| then NoValue else
          match ListIn(rest)
          case NoValue => NoValue
          case Read(list, end) => Read([Entry(Unfixed(data[..8]), positions)] + list, end)
  }

  lemma {:induction false} UnvarintShrinks(bytes: seq<Byte>, left: nat)
    ensures Unvarint(bytes, left).Read? ==> |Unvarint(bytes, left).rest| < |bytes|
  {
    if bytes != [] && left > 0 && bytes[0] >= 128 {
      UnvarintShrinks(bytes[1..], left - 1);
    }
  }

  lemma {:induction false} UndeltaShrinks(bytes: seq<Byte>, count: nat, v: Word)
    ensures Undelta(bytes, count, v).Read? ==> |Undelta(bytes, count, v).rest| <= |bytes|
    decreases count
  {
    if count > 0 && Unvarint(bytes, 5).Read? {
      UnvarintShrinks(bytes, 5);
      var r := Truncated(Unvarint(bytes, 5));
      UndeltaShrinks(r.rest, count - 1, (r.value + v) % TWO_TO_THE_32);
    }
  }

  lemma UndifferentialShrinks(bytes: seq<Byte>)
    ensures Undifferential(bytes).Read? ==> |Undifferential(bytes).rest| <= |bytes|
  {
    UnvarintShrinks(bytes, 5);
    if Unvarint(bytes, 5).Read? {
      var r := Truncated(Unvarint(bytes, 5));
      UndeltaShrinks(r.rest, r.value, 0);
    }
  }

  function Before(list: seq<Entry>, r: Reading<seq<Entry>>): Reading<seq<Entry>> {
    match r
    case NoValue => NoValue
    case Read(xs, rest) => Read(list + xs, rest)
  }

  lemma BeforeNothing(r: Reading<seq<Entry>>)
    ensures Before([], r) == r
  {
    assert r.Read? ==> [] + r.value == r.value;
  }

  lemma ListInStep(vec: seq<Entry>, data: seq<Byte>, positions: seq<Word>, rest: seq<Byte>)
    requires |data| >= 8 && Undifferential(data[8..]) == Read(positions, rest)
    ensures |rest| < |data|
    ensures Before(vec, ListIn(data)) == Before(vec + [Entry(Unfixed(data[..8]), positions)], ListIn(rest))
  {
    UndifferentialShrinks(data[8..]);
    BeforeOne(vec, Entry(Unfixed(data[..8]), positions), ListIn(rest));
  }

  lemma BeforeOne(vec: seq<Entry>, e: Entry, r: Reading<seq<Entry>>)
    ensures Before(vec, Before([e], r)) == Before(vec + [e], r)
  {
    if r.Read? {
      assert vec + ([e] + r.value) == vec + [e] + r.value;
    }
  }

  method Decode(arr: seq<Byte>) returns (vec: seq<Entry>)
    ensures vec == ListOf(arr)
  {
    var data := arr;
    vec := [];
    BeforeNothing(ListIn(arr));
    while data != []
      invariant ListIn(arr) == Before(vec, ListIn(data))
      decreases |data|
    {
      if |data| < 8 {
        return [];
      }
      var docId := Unfixed(data[..8]);
      var r := GetDifferentialVarInt32(data[8..]);
      if r.NoValue? {
        return [];
      }
      ListInStep(vec, data, r.value, r.rest);
      vec := vec + [Entry(docId, r.value)];
      data := r.rest;
    }
  }

  lemma {:induction false} ListRoundTrip(list: seq<Entry>)
    requires Encodable(list)
    ensures ListIn(ListBytes(list)) == Read(list, [])
  {
    if list != [] {
      var e, data, tail := list[0], ListBytes(list), ListBytes(list[1..]);
      assert e in list;
      IdFits(e.docId);
      UnfixedFixed(e.docId, 8);
      assert data == Fixed(e.docId, 8) + (Differential(e.positions) + tail);
      assert data[..8] == Fixed(e.docId, 8) && data[8..] == Differential(e.positions) + tail;
      DifferentialRoundTrip(e.positions, tail);
      ListInStep([], data, e.positions, tail);
      ListRoundTrip(list[1..]);
      BeforeNothing(ListIn(data));
      assert [e] + list[1..] == list && [] + [e] == [e];
    }
  }

  /** Decoding undoes encoding for every list, sorted or not. */
  method RoundTrip(list: seq<Entry>) returns (again: seq<Entry>)
    requires Encodable(list)
    ensures again == list
  {
    var data := Encode(list);
    ListRoundTrip(list);
    again := Decode(data);
  }
}
