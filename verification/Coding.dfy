/**
  Variable-length integers and lists of differences (src/codecs/coding.cpp, coding.h).
  Varints are unsigned LEB128 (section 7.6 of DWARF Version 4).  Bytes and 32-bit words
  are numbers in their range; masks and shifts by whole groups of seven bits are written
  as remainders and quotients.  A read pointer together with its limit is the sequence
  of bytes between them.
 */
module Coding {
  import opened Bytes

  const TWO_TO_THE_32 := 0x1_0000_0000

  type Word = v: nat | v < TWO_TO_THE_32

  /** What a read returns: a value and the bytes after it, or the null pointer. */
  datatype Reading<T> = NoValue | Read(value: T, rest: seq<Byte>)

  /** LEB128: seven bits per byte, low ones first; the high bit says that more follow. */
  function Varint(v: nat): (r: seq<Byte>)
    ensures r != []
  {
    if v < 128 then [v] else [v % 128 + 128] + Varint(v / 128)
  }

  /** The number in at most `left` LEB128 bytes. */
  function Unvarint(bytes: seq<Byte>, left: nat): Reading<nat>
    decreases |bytes|
  {
    if bytes == [] || left == 0 then NoValue
    else if bytes[0] < 128 then Read(bytes[0], bytes[1..])
    else
      match Unvarint(bytes[1..], left - 1)
      case NoValue => NoValue
      case Read(v, rest) => Read(bytes[0] - 128 + 128 * v, rest)
  }

  /** The number fits into that many groups of seven bits. */
  predicate Fits(v: nat, left: nat)
    decreases v
  {
    left > 0 && (v < 128 || Fits(v / 128, left - 1))
  }

  lemma WordFits(v: Word)
    ensures Fits(v, 5)
  {
    assert v / 128 / 128 / 128 / 128 < 128;
    assert Fits(v / 128 / 128 / 128 / 128, 1);
    assert Fits(v / 128 / 128 / 128, 2);
  }

  lemma {:induction false} VarintSize(v: nat, left: nat)
    requires Fits(v, left)
    ensures |Varint(v)| <= left
  {
    if v >= 128 {
      VarintSize(v / 128, left - 1);
    }
  }

  lemma {:induction false} UnvarintVarint(v: nat, left: nat, rest: seq<Byte>)
    requires Fits(v, left)
    ensures Unvarint(Varint(v) + rest, left) == Read(v, rest)
  {
    var bytes := Varint(v) + rest;
    if v < 128 {
      assert bytes[1..] == rest;
    } else {
      assert bytes[1..] == Varint(v / 128) + rest;
      UnvarintVarint(v / 128, left - 1, rest);
    }
  }

  lemma WordVarint(v: Word, rest: seq<Byte>)
    ensures |Varint(v)| <= 5 && Unvarint(Varint(v) + rest, 5) == Read(v, rest)
  {
    WordFits(v);
    VarintSize(v, 5);
    UnvarintVarint(v, 5, rest);
  }

  /** dst[from..] begins with these bytes, and everything else is as before. */
  ghost predicate Written(before: seq<Byte>, after: seq<Byte>, from: nat, bytes: seq<Byte>) {
    from + |bytes| <= |before| && after == before[..from] + bytes + before[from + |bytes|..]
  }

  lemma Unrolled1(v: Word)
    requires 0x80 <= v < 0x4000
    ensures Varint(v) == [v % 128 + 128, v / 0x80]
  {
    VarintUnfolds(v);
  }

  lemma Unrolled2(v: Word)
    requires 0x4000 <= v < 0x20_0000
    ensures Varint(v) == [v % 128 + 128, v / 0x80 % 128 + 128, v / 0x4000]
  {
    Quotients(v);
    VarintUnfolds(v);
    Unrolled1(v / 0x80);
  }

  lemma Unrolled3(v: Word)
    requires 0x20_0000 <= v < 0x1000_0000
    ensures Varint(v) == [v % 128 + 128, v / 0x80 % 128 + 128, v / 0x4000 % 128 + 128, v / 0x20_0000]
  {
    Quotients(v);
    VarintUnfolds(v);
    Unrolled2(v / 0x80);
  }

  lemma Unrolled4(v: Word)
    requires 0x1000_0000 <= v
    ensures Varint(v) ==
      [v % 128 + 128, v / 0x80 % 128 + 128, v / 0x4000 % 128 + 128, v / 0x20_0000 % 128 + 128, v / 0x1000_0000]
  {
    Quotients(v);
    VarintUnfolds(v);
    Unrolled3(v / 0x80);
  }

  lemma Quotients(v: Word)
    ensures v / 0x80 / 0x80 == v / 0x4000 && v / 0x80 / 0x4000 == v / 0x20_0000 &&
      v / 0x80 / 0x20_0000 == v / 0x1000_0000
  {
  }

  lemma VarintUnfolds(v: nat)
    requires v >= 128
    ensures Varint(v) == [v % 128 + 128] + Varint(v / 128)
    ensures v / 128 < 128 ==> Varint(v) == [v % 128 + 128, v / 128]
  {
  }

  /** encodeVarint32Internal, unrolled by size: it writes the LEB128 form and returns its length. */
  method EncodeVarint32Internal(dst: array<Byte>, pos: nat, v: Word) returns (n: nat)
    requires pos + |Varint(v)| <= dst.Length
    modifies dst
    ensures n == |Varint(v)| <= 5 && Written(old(dst[..]), dst[..], pos, Varint(v))
  {
    if v < 0x80 {
      dst[pos] := v;
      return 1;
    }
    dst[pos] := v % 128 + 128;
    if v < 0x4000 {
      Unrolled1(v);
      dst[pos + 1] := v / 0x80;
      return 2;
    }
    dst[pos + 1] := v / 0x80 % 128 + 128;
    if v < 0x20_0000 {
      Unrolled2(v);
      dst[pos + 2] := v / 0x4000;
      return 3;
    }
    dst[pos + 2] := v / 0x4000 % 128 + 128;
    if v < 0x1000_0000 {
      Unrolled3(v);
      dst[pos + 3] := v / 0x20_0000;
      return 4;
    }
    Unrolled4(v);
    dst[pos + 3] := v / 0x20_0000 % 128 + 128;
    dst[pos + 4] := v / 0x1000_0000;
    return 5;
  }

  /** The weight of the next group of seven bits. */
  ghost predicate Weight(left: nat, scale: nat) {
    (left == 5 && scale == 1) || (left == 4 && scale == 0x80) || (left == 3 && scale == 0x4000) ||
    (left == 2 && scale == 0x20_0000) || (left == 1 && scale == 0x1000_0000) || left == 0
  }

  /** A reading of the higher groups, put together with the lower ones read before. */
  ghost function Above(result: nat, scale: nat, high: Reading<nat>): Reading<nat> {
    match high
    case NoValue => NoValue
    case Read(v, rest) => Read(result + scale * v, rest)
  }

  /** One more group with more to follow. */
  lemma ReadsOn(result: nat, scale: nat, q: seq<Byte>, left: nat)
    requires q != [] && left > 0 && q[0] >= 128
    ensures Above(result, scale, Unvarint(q, left)) ==
      Above(result + (q[0] - 128) * scale, scale * 128, Unvarint(q[1..], left - 1))
  {
    var low: nat, high := q[0] - 128, Unvarint(q[1..], left - 1);
    if high.Read? {
      assert scale * (low + 128 * high.value) == low * scale + scale * 128 * high.value;
    }
  }

  /** The last group. */
  lemma ReadsLast(result: nat, scale: nat, q: seq<Byte>, left: nat)
    requires q != [] && left > 0 && q[0] < 128
    ensures Above(result, scale, Unvarint(q, left)) == Read(result + q[0] * scale, q[1..])
  {
    assert scale * q[0] == q[0] * scale;
  }

  /** As long as another group may follow, nothing is truncated. */
  lemma StaysSmall(result: nat, scale: nat, left: nat, low: nat)
    requires Weight(left, scale) && left > 1 && result < scale && low < 128
    ensures result + low * scale < scale * 128 < TWO_TO_THE_32 && Weight(left - 1, scale * 128)
  {
  }

  /** The low 32 bits of what was read. */
  function Truncated(r: Reading<nat>): Reading<Word> {
    match r
    case NoValue => NoValue
    case Read(v, rest) => Read(v % TWO_TO_THE_32, rest)
  }

  /** result |= group << shift, in 32 bits: the groups do not overlap, so this adds. */
  function Accumulate(result: Word, group: nat, scale: nat): Word {
    (result + group * scale) % TWO_TO_THE_32
  }

  /** The bytes before q have been read, at most `left` more may follow. */
  ghost predicate Sofar(p: seq<Byte>, q: seq<Byte>, result: nat, scale: nat, left: nat) {
    left <= 5 && Weight(left, scale) && (left == 0 <==> scale > 0x1000_0000) &&
    if left == 0 then Unvarint(p, 5) == NoValue
    else result < scale && Unvarint(p, 5) == Above(result, scale, Unvarint(q, left))
  }

  lemma SofarOn(p: seq<Byte>, q: seq<Byte>, result: Word, scale: nat, left: nat)
    requires Sofar(p, q, result, scale, left) && left > 0 && q != [] && q[0] >= 128
    ensures Sofar(p, q[1..], Accumulate(result, q[0] - 128, scale), scale * 128, left - 1)
  {
    var group: nat := q[0] - 128;
    ReadsOn(result, scale, q, left);
    if left > 1 {
      StaysSmall(result, scale, left, group);
      AccumulateSmall(result, group, scale);
    } else {
      assert Unvarint(q[1..], 0) == NoValue;
      assert scale * 128 > 0x1000_0000;
    }
  }

  lemma AccumulateSmall(result: Word, group: nat, scale: nat)
    requires result + group * scale < TWO_TO_THE_32
    ensures Accumulate(result, group, scale) == result + group * scale
  {
  }

  lemma SofarEnds(p: seq<Byte>, q: seq<Byte>, result: Word, scale: nat, left: nat)
    requires Sofar(p, q, result, scale, left) && left > 0 && q != [] && q[0] < 128
    ensures Truncated(Unvarint(p, 5)) == Read(Accumulate(result, q[0], scale), q[1..])
  {
    ReadsLast(result, scale, q, left);
  }

  /** getVarint32PtrFallback: at most five bytes. */
  method GetVarint32PtrFallback(p: seq<Byte>) returns (r: Reading<Word>)
    ensures r == Truncated(Unvarint(p, 5))
  {
    var result: Word := 0;
    var scale: nat := 1;
    var q := p;
    ghost var left: nat := 5;
    while scale <= 0x1000_0000 && q != []
      invariant Sofar(p, q, result, scale, left)
      decreases left
    {
      if q[0] >= 128 {
        SofarOn(p, q, result, scale, left);
        result := Accumulate(result, q[0] - 128, scale);
      } else {
        SofarEnds(p, q, result, scale, left);
        return Read(Accumulate(result, q[0], scale), q[1..]);
      }
      q := q[1..];
      scale := scale * 128;
      left := left - 1;
    }
    return NoValue;
  }

  /** getVarint32Ptr: one byte directly, longer ones by the fallback. */
  method GetVarint32Ptr(p: seq<Byte>) returns (r: Reading<Word>)
    ensures r == Truncated(Unvarint(p, 5))
  {
    if p == [] {
      return NoValue;
    }
    if p[0] < 128 {
      return Read(p[0], p[1..]);
    }
    r := GetVarint32PtrFallback(p);
  }
}
