/** PKIFailureInfo as a named bit list (enrollment/cmp.py `fail_info`; section 11.2.2 of
    X.690 asks for no trailing zero bits). */
module NamedBits {
  import opened Bytes
  import Der

  /** Bit `k` of a byte, counted from the top: 0x80 shifted down `k` times. */
  function Mask(k: nat): bv8 {
    if k == 0 then 0x80 else Mask(k - 1) >> 1
  }

  predicate Bit(x: bv8, k: nat) { x & Mask(k) != 0 }

  function WithBit(x: bv8, k: nat): bv8 { x | Mask(k) }

  predicate HasBit(value: seq<bv8>, i: nat) {
    i / 8 < |value| && Bit(value[i / 8], i % 8)
  }

  lemma MaskValues()
    ensures Mask(0) == 0x80 && Mask(1) == 0x40 && Mask(2) == 0x20 && Mask(3) == 0x10
    ensures Mask(4) == 0x08 && Mask(5) == 0x04 && Mask(6) == 0x02 && Mask(7) == 0x01
  {
    assert Mask(3) == 0x10;
    assert Mask(6) == 0x02;
  }

  lemma OneMoreBit(x: bv8, j: nat, k: nat)
    requires j < 8 && k < 8
    ensures Bit(WithBit(x, j), k) <==> j == k || Bit(x, k)
  {
    MaskValues();
  }

  function Octets(value: seq<bv8>): Bytes {
    seq(|value|, i requires 0 <= i < |value| => value[i] as int)
  }

  function Maximum(s: seq<nat>): (m: nat)
    requires s != []
    ensures m in s && forall i :: 0 <= i < |s| ==> s[i] <= m
  {
    if |s| == 1 then s[0]
    else
      var m := Maximum(s[..|s| - 1]);
      if m < s[|s| - 1] then s[|s| - 1] else m
  }

  /** The encoding holds exactly the given bits, and the last bit it counts is one of them. */
  method FailInfo(bitNumbers: seq<nat>) returns (der: Bytes, unused: nat, value: seq<bv8>)
    requires bitNumbers != [] && forall i :: 0 <= i < |bitNumbers| ==> bitNumbers[i] < Der.TWO64
    ensures forall i: nat :: HasBit(value, i) <==> i in bitNumbers
    ensures unused < 8 && value != [] && HasBit(value, |value| * 8 - unused - 1)
    ensures |value| + 1 < Der.TWO64 && der == Der.Tlv(0x03, [unused] + Octets(value))
  {
    var n := Maximum(bitNumbers) + 1;
    var size := (n + 7) / 8;
    var bytes := new bv8[size](_ => 0);
    assert forall i: nat :: i / 8 < size ==> bytes[..][i / 8] == 0;
    var k := 0;
    while k < |bitNumbers|
      invariant 0 <= k <= |bitNumbers|
      invariant forall i: nat :: HasBit(bytes[..], i) <==> i in bitNumbers[..k]
    {
      var b := bitNumbers[k];
      ghost var before := bytes[..];
      bytes[b / 8] := bytes[b / 8] | Mask(b % 8);
      assert bitNumbers[..k + 1] == bitNumbers[..k] + [b];
      BitAdded(before, b, bytes[..]);
      k := k + 1;
    }
    assert bitNumbers[..k] == bitNumbers;
    value := bytes[..];
    unused := size * 8 - n;
    Der.LengthFits(size + 1);
    der := Der.Tlv(0x03, [unused] + Octets(value));
  }

  lemma SameBit(b: nat, i: nat)
    requires i / 8 == b / 8
    ensures b % 8 == i % 8 <==> i == b
  {
    assert i == i / 8 * 8 + i % 8 && b == b / 8 * 8 + b % 8;
  }

  lemma SameByte(before: seq<bv8>, b: nat, after: seq<bv8>, i: nat)
    requires i / 8 == b / 8 < |before| && after == before[b / 8 := WithBit(before[b / 8], b % 8)]
    ensures HasBit(after, i) <==> HasBit(before, i) || i == b
  {
    hide Bit, WithBit;
    OneMoreBit(before[b / 8], b % 8, i % 8);
    SameBit(b, i);
  }

  lemma OtherByte(before: seq<bv8>, b: nat, after: seq<bv8>, i: nat)
    requires i / 8 != b / 8 < |before| && after == before[b / 8 := WithBit(before[b / 8], b % 8)]
    ensures HasBit(after, i) <==> HasBit(before, i)
  {
    hide Bit, WithBit;
    if i / 8 < |before| { assert after[i / 8] == before[i / 8]; }
  }

  lemma BitAdded(before: seq<bv8>, b: nat, after: seq<bv8>)
    requires b / 8 < |before| && after == before[b / 8 := WithBit(before[b / 8], b % 8)]
    ensures forall i: nat :: HasBit(after, i) <==> HasBit(before, i) || i == b
  {
    hide HasBit, WithBit;
    forall i: nat ensures HasBit(after, i) <==> HasBit(before, i) || i == b {
      if i / 8 == b / 8 { SameByte(before, b, after, i); } else { OtherByte(before, b, after, i); }
    }
  }
}
