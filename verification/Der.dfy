/** Just enough DER (crypto/der.py, and the helpers of enrollment/cmp.py): definite
    lengths as in section 8.1.3 of X.690, the children of a SEQUENCE, replacing the
    signature of a certificate, and named bit lists. */
module Der {
  import opened Prelude
  import opened Bytes

  datatype Error = IndexError | NotASequence | UnsupportedLength | UnexpectedStructure

  // ------------------------------------------------------------ lengths

  /** The length at `pos`, and where the contents begin. */
  function ReadLen(data: Bytes, pos: nat): Result<(nat, nat), Error> {
    if pos >= |data| then Err(IndexError)
    else
      var first := data[pos];
      if first < 0x80 then Ok((first, pos + 1))
      else
        var n := first - 0x80;
        if n == 0 || n > 4 then Err(UnsupportedLength)
        else Ok((FromBytes(Slice(data, pos + 1, pos + 1 + n)), pos + 1 + n))
  }

  /** The indefinite form, and a length of more than four bytes, are refused; past the end there is none. */
  lemma ReadLenRefuses(data: Bytes, pos: nat)
    ensures pos >= |data| ==> ReadLen(data, pos) == Err(IndexError)
    ensures pos < |data| ==> (ReadLen(data, pos).Err? <==> data[pos] == 0x80 || data[pos] > 0x84)
  {}

  const TWO32: nat := 0x1_0000_0000
  const TWO64: nat := 0x1_0000_0000_0000_0000

  /** Lengths are Python object sizes, below 2^64. */
  function EncodeLen(n: nat): (b: Bytes)
    requires n < TWO64
    ensures b != []
  {
    if n < 0x80 then [n]
    else
      LengthFits(n);
      [0x80 + ByteLength(n)] + ToBytes(n, ByteLength(n))
  }

  lemma LengthFits(n: nat)
    requires n < TWO64
    ensures ByteLength(n) <= 8
  {
    ByteLengthExact(n);
    assert Pow256(8) == TWO64;
    if ByteLength(n) > 8 { Pow256Monotone(8, ByteLength(n) - 1); }
  }

  lemma SizeBelowFive(n: nat)
    requires n < TWO64
    ensures n < Pow256(ByteLength(n)) && ByteLength(n) <= 8
    ensures n >= 0x80 ==> ByteLength(n) > 0
    ensures ByteLength(n) <= 4 <==> n < TWO32
  {
    LengthFits(n);
    ByteLengthExact(n);
    assert Pow256(4) == TWO32;
    if ByteLength(n) <= 4 { Pow256Monotone(ByteLength(n), 4); } else { Pow256Monotone(4, ByteLength(n) - 1); }
  }

  lemma SliceMiddle(before: Bytes, c: Bytes, after: Bytes)
    ensures Slice(before + c + after, |before|, |before| + |c|) == c
  {}

  lemma ReadDigits(data: Bytes, pos: nat, digits: Bytes)
    requires pos < |data| && 1 <= |digits| <= 8 && data[pos] == 0x80 + |digits|
    requires Slice(data, pos + 1, pos + 1 + |digits|) == digits
    ensures ReadLen(data, pos)
         == if |digits| <= 4 then Ok((FromBytes(digits), pos + 1 + |digits|)) else Err(UnsupportedLength)
  {}

  lemma HeadAndDigits(before: Bytes, x: Byte, digits: Bytes, after: Bytes, data: Bytes)
    requires data == before + ([x] + digits) + after
    ensures |before| < |data| && data[|before|] == x
    ensures Slice(data, |before| + 1, |before| + 1 + |digits|) == digits
  {
    assert data == before + [x] + digits + after;
    SliceMiddle(before + [x], digits, after);
  }

  lemma ReadLongLen(before: Bytes, first: Byte, digits: Bytes, after: Bytes, data: Bytes)
    requires 1 <= |digits| <= 8 && first == 0x80 + |digits| && data == before + ([first] + digits) + after
    ensures ReadLen(data, |before|)
         == if |digits| <= 4 then Ok((FromBytes(digits), |before| + 1 + |digits|)) else Err(UnsupportedLength)
  {
    HeadAndDigits(before, first, digits, after, data);
    ReadDigits(data, |before|, digits);
  }

  /** Reading undoes encoding exactly for lengths that fit in four bytes. */
  lemma ReadEncodedLen(before: Bytes, n: nat, after: Bytes)
    requires n < TWO64
    ensures ReadLen(before + EncodeLen(n) + after, |before|)
         == if n < TWO32 then Ok((n, |before| + |EncodeLen(n)|)) else Err(UnsupportedLength)
  {
    if n < 0x80 {
      assert (before + EncodeLen(n) + after)[|before|] == n;
    } else {
      SizeBelowFive(n);
      var digits := ToBytes(n, ByteLength(n));
      FromToBytes(n, ByteLength(n));
      var first: Byte := 0x80 + |digits|;
      assert EncodeLen(n) == [first] + digits;
      ReadLongLen(before, first, digits, after, before + EncodeLen(n) + after);
    }
  }

  // ------------------------------------------------------------ one element

  function Tlv(tag: Byte, value: Bytes): Bytes
    requires |value| < TWO64
  {
    [tag] + EncodeLen(|value|) + value
  }

  /** One whole element with a one-byte tag, its length in any form `ReadLen` accepts. */
  predicate IsTlv(c: Bytes) {
    && |c| > 0
    && var r := ReadLen(c, 1);
       r.Ok? && r.value.1 + r.value.0 == |c|
  }

  lemma TlvIsTlv(tag: Byte, value: Bytes)
    requires |value| < TWO32
    ensures IsTlv(Tlv(tag, value))
    ensures ReadLen(Tlv(tag, value), 1) == Ok((|value|, |Tlv(tag, value)| - |value|))
  {
    ReadEncodedLen([tag], |value|, value);
  }

  /** Content of a TLV, as dropping an EXPLICIT tag does. */
  function Inner(der: Bytes): Result<Bytes, Error> {
    match ReadLen(der, 1)
    case Err(e) => Err(e)
    case Ok((length, pos)) => Ok(Slice(der, pos, pos + length))
  }

  /** Give a constructed value its own tag back. */
  function Retag(der: Bytes, tag: Byte): Bytes {
    [tag] + Slice(der, 1, |der|)
  }

  lemma InnerUndoesTlv(tag: Byte, value: Bytes, tag': Byte)
    requires |value| < TWO32
    ensures Inner(Tlv(tag, value)) == Ok(value)
    ensures Retag(Tlv(tag, value), tag') == Tlv(tag', value)
  {
    TlvIsTlv(tag, value);
  }

  // ------------------------------------------------------------ children of a SEQUENCE

  /** Where the element at `pos` ends. */
  function Skip(data: Bytes, pos: nat): (r: Result<nat, Error>)
    ensures r.Ok? ==> r.value > pos
  {
    match ReadLen(data, pos + 1)
    case Err(e) => Err(e)
    case Ok((length, start)) => Ok(start + length)
  }

  /** The raw elements between `pos` and `end`. */
  function Children(data: Bytes, pos: nat, end: nat): Result<seq<Bytes>, Error>
    decreases end - pos
  {
    if pos >= end then Ok([])
    else match Skip(data, pos)
      case Err(e) => Err(e)
      case Ok(next) =>
        match Children(data, next, end)
        case Err(e) => Err(e)
        case Ok(rest) => Ok([Slice(data, pos, next)] + rest)
  }

  function Split(data: Bytes): Result<seq<Bytes>, Error> {
    if data == [] then Err(IndexError)
    else if data[0] != 0x30 then Err(NotASequence)
    else match ReadLen(data, 1)
      case Err(e) => Err(e)
      case Ok((length, pos)) => Children(data, pos, pos + length)
  }

  /** Only a SEQUENCE with a length that can be read is split at all. */
  lemma SplitsOnly(data: Bytes)
    requires Split(data).Ok?
    ensures |data| >= 2 && data[0] == 0x30 && data[1] != 0x80 && data[1] <= 0x84
  {
    ReadLenRefuses(data, 1);
  }

  lemma NextChild(data: Bytes, pos: nat, end: nat, next: nat)
    requires pos < end && Skip(data, pos) == Ok(next)
    ensures Children(data, pos, end) == Prepend([Slice(data, pos, next)], Children(data, next, end))
  {}

  method SplitSequence(data: Bytes) returns (r: Result<seq<Bytes>, Error>)
    ensures r == Split(data)
  {
    if data == [] { return Err(IndexError); }
    if data[0] != 0x30 { return Err(NotASequence); }
    var header := ReadLen(data, 1);
    if header.Err? { return Err(header.error); }
    var (length, pos) := header.value;
    var end := pos + length;
    var children := [];
    PrependNothing(Children(data, pos, end));
    while pos < end
      invariant Split(data) == Prepend(children, Children(data, pos, end))
      decreases if pos < end then end - pos else 0
    {
      var start := pos;
      var inner := ReadLen(data, pos + 1);
      if inner.Err? { return Err(inner.error); }
      pos := inner.value.1 + inner.value.0;
      NextChild(data, start, end, pos);
      PrependMore(children, Slice(data, start, pos), Children(data, pos, end));
      children := children + [Slice(data, start, pos)];
    }
    assert children + [] == children;
    return Ok(children);
  }

  function Prepend(head: seq<Bytes>, tail: Result<seq<Bytes>, Error>): Result<seq<Bytes>, Error> {
    match tail
    case Err(e) => Err(e)
    case Ok(rest) => Ok(head + rest)
  }

  lemma PrependNothing(tail: Result<seq<Bytes>, Error>)
    ensures Prepend([], tail) == tail
  {
    if tail.Ok? { assert [] + tail.value == tail.value; }
  }

  lemma PrependMore(head: seq<Bytes>, c: Bytes, tail: Result<seq<Bytes>, Error>)
    ensures Prepend(head, Prepend([c], tail)) == Prepend(head + [c], tail)
  {
    if tail.Ok? { assert head + ([c] + tail.value) == head + [c] + tail.value; }
  }

  function Concat(parts: seq<Bytes>): Bytes {
    if parts == [] then [] else parts[0] + Concat(parts[1..])
  }

  predicate AllTlv(parts: seq<Bytes>) {
    parts == [] || (IsTlv(parts[0]) && AllTlv(parts[1..]))
  }

  lemma ConcatThree(a: Bytes, b: Bytes, c: Bytes)
    ensures Concat([a, b, c]) == a + b + c
    ensures AllTlv([a, b, c]) <==> IsTlv(a) && IsTlv(b) && IsTlv(c)
  {
    assert [a, b, c][1..] == [b, c] && [b, c][1..] == [c];
    assert Concat([c]) == c && Concat([b, c]) == b + c;
    assert AllTlv([c]) == IsTlv(c);
  }

  /** The parts follow each other from `pos` to the end of the data. */
  predicate LaidOut(data: Bytes, pos: nat, parts: seq<Bytes>)
    decreases |parts|
  {
    if parts == [] then pos == |data|
    else
      var next := pos + |parts[0]|;
      next <= |data| && data[pos..next] == parts[0] && LaidOut(data, next, parts[1..])
  }

  lemma {:induction false} ConcatLaidOut(before: Bytes, parts: seq<Bytes>, data: Bytes)
    requires data == before + Concat(parts)
    ensures LaidOut(data, |before|, parts)
    decreases |parts|
  {
    if parts != [] {
      var c, after := parts[0], Concat(parts[1..]);
      assert data == before + c + after;
      assert data[|before|..|before| + |c|] == c;
      ConcatLaidOut(before + c, parts[1..], data);
    }
  }

  /** An element reads the same wherever it stands. */
  lemma SkipAnywhere(data: Bytes, pos: nat, c: Bytes)
    requires IsTlv(c) && pos + |c| <= |data| && data[pos..pos + |c|] == c
    ensures Skip(data, pos) == Ok(pos + |c|)
  {
    assert forall i :: 0 <= i < |c| ==> data[pos + i] == c[i];
    var first := c[1];
    if first >= 0x80 {
      var n := first - 0x80;
      assert Slice(data, pos + 2, pos + 2 + n) == Slice(c, 2, 2 + n);
    }
  }

  lemma {:induction false} ChildrenLaidOut(data: Bytes, pos: nat, parts: seq<Bytes>)
    requires AllTlv(parts) && LaidOut(data, pos, parts)
    ensures Children(data, pos, |data|) == Ok(parts)
    decreases |parts|
  {
    if parts != [] {
      var next := pos + |parts[0]|;
      SkipAnywhere(data, pos, parts[0]);
      ChildrenLaidOut(data, next, parts[1..]);
      NextChild(data, pos, |data|, next);
      assert Slice(data, pos, next) == parts[0];
      assert parts == [parts[0]] + parts[1..];
    }
  }

  /** Splitting a SEQUENCE built from any list of elements returns that list, as long as
      their length fits in four bytes. */
  lemma SplitOfTlv(parts: seq<Bytes>)
    requires AllTlv(parts)
    requires |Concat(parts)| < TWO64
    ensures Split(Tlv(0x30, Concat(parts))) == if |Concat(parts)| < TWO32 then Ok(parts) else Err(UnsupportedLength)
  {
    var content := Concat(parts);
    var header := [0x30] + EncodeLen(|content|);
    ReadEncodedLen([0x30], |content|, content);
    if |content| < TWO32 { SplitAfterHeader(header, parts, header + content); }
  }

  lemma SplitAfterHeader(header: Bytes, parts: seq<Bytes>, data: Bytes)
    requires AllTlv(parts) && data == header + Concat(parts)
    requires header != [] && header[0] == 0x30 && ReadLen(data, 1) == Ok((|Concat(parts)|, |header|))
    ensures Split(data) == Ok(parts)
  {
    ConcatLaidOut(header, parts, data);
    ChildrenLaidOut(data, |header|, parts);
  }

  /** Splitting loses and invents nothing: the children, put together again, are the bytes
      from the first child to where the last one ends, or to the end of the data. */
  lemma {:induction false} ChildrenConserve(data: Bytes, pos: nat, end: nat) returns (stop: nat)
    requires Children(data, pos, end).Ok?
    ensures stop >= end && stop >= pos
    ensures Concat(Children(data, pos, end).value) == Slice(data, pos, stop)
    decreases end - pos
  {
    stop := pos;
    if pos < end {
      var next := Skip(data, pos).value;
      stop := ChildrenConserve(data, next, end);
      assert Slice(data, pos, next) + Slice(data, next, stop) == Slice(data, pos, stop);
    }
  }

  /** A child that is not the last one is a whole element. */
  lemma ChildComplete(data: Bytes, pos: nat, end: nat)
    requires pos < end && Children(data, pos, end).Ok? && |Children(data, pos, end).value| > 1
    ensures IsTlv(Children(data, pos, end).value[0])
  {
    var next := Skip(data, pos).value;
    assert next < end && Skip(data, next).Ok?;
    CutOut(data, pos, next);
  }

  /** An element that lies within the data is a whole element when cut out. */
  lemma CutOut(data: Bytes, pos: nat, next: nat)
    requires Skip(data, pos) == Ok(next) && next <= |data|
    ensures IsTlv(Slice(data, pos, next))
  {
    var c := Slice(data, pos, next);
    assert |c| == next - pos && forall i :: 0 <= i < |c| ==> c[i] == data[pos + i];
    var first := data[pos + 1];
    if first >= 0x80 {
      var n := first - 0x80;
      assert Slice(data, pos + 2, pos + 2 + n) == Slice(c, 2, 2 + n);
    }
  }

  // ------------------------------------------------------------ replacing a signature

  function ReplaceSignature(signedDer: Bytes, tbs: Bytes, signature: Bytes): Result<Bytes, Error>
    requires |signedDer| + |signature| < TWO64 - 16
  {
    match Split(signedDer)
    case Err(e) => Err(e)
    case Ok(children) =>
      if |children| != 3 || children[0] != tbs then Err(UnexpectedStructure)
      else
        ThreeChildrenFit(signedDer);
        LengthFits(|signature| + 1);
        Ok(Tlv(0x30, children[0] + children[1] + Tlv(0x03, [0] + signature)))
  }

  lemma ThreeChildrenFit(der: Bytes)
    requires Split(der).Ok? && |Split(der).value| == 3
    ensures var c := Split(der).value; |c[0]| + |c[1]| <= |der|
    ensures var c := Split(der).value; IsTlv(c[0]) && IsTlv(c[1])
  {
    var (length, pos) := ReadLen(der, 1).value;
    var end := pos + length;
    var c := Split(der).value;
    var next := Skip(der, pos).value;
    ChildComplete(der, pos, end);
    assert Children(der, next, end) == Ok(c[1..]);
    ChildComplete(der, next, end);
    var stop := ChildrenConserve(der, pos, end);
    assert c == [c[0]] + [c[1]] + c[2..];
    assert Concat(c) == c[0] + (c[1] + Concat(c[1..][1..]));
  }

  /** The signature is replaced exactly in a sequence of three whose first is the part to be signed. */
  lemma ReplacesIff(signedDer: Bytes, tbs: Bytes, signature: Bytes)
    requires |signedDer| + |signature| < TWO64 - 16
    ensures ReplaceSignature(signedDer, tbs, signature).Ok?
       <==> exists alg, was :: Split(signedDer) == Ok([tbs, alg, was])
  {
    if Split(signedDer).Ok? && |Split(signedDer).value| == 3 && Split(signedDer).value[0] == tbs {
      var c := Split(signedDer).value;
      assert c == [tbs, c[1], c[2]];
    }
  }

  /** Whatever was signed, the rebuilt structure has exactly three children: the same
      to-be-signed part, the same algorithm, and the new signature as a bit string; unless
      it outgrew the lengths `Split` reads. */
  lemma ReplacedSignatureSplits(signedDer: Bytes, tbs: Bytes, signature: Bytes)
    requires |signedDer| + |signature| < TWO64 - 16
    requires ReplaceSignature(signedDer, tbs, signature).Ok?
    ensures var parts := [tbs, Split(signedDer).value[1], Tlv(0x03, [0] + signature)];
            Split(ReplaceSignature(signedDer, tbs, signature).value)
            == if |Concat(parts)| < TWO32 then Ok(parts) else Err(UnsupportedLength)
  {
    var c := Split(signedDer).value;
    var bits := Tlv(0x03, [0] + signature);
    ThreeChildrenFit(signedDer);
    LengthFits(|signature| + 1);
    var content := c[0] + c[1] + bits;
    ConcatThree(c[0], c[1], bits);
    if |content| < TWO32 {
      TlvIsTlv(0x03, [0] + signature);
      SplitOfTlv([c[0], c[1], bits]);
    } else {
      ReadEncodedLen([0x30], |content|, content);
    }
  }
}
