/** ARI certificate identifiers (enrollment/ari.py; section 4.1 of RFC 9773):
    base64url(key identifier) "." base64url(serial), both without padding. The decoder is
    Python's lenient one: it skips characters outside the alphabet and stops at padding. */
module CertId {
  import opened Prelude
  import opened Bytes

  datatype Error = BadBase64 | NotTwoParts | EmptyOrNegative

  // ------------------------------------------------------------ base64url

  /** Six bits. */
  type Six = v: nat | v < 64

  function Symbol(v: Six): char {
    if v < 26 then (65 + v) as char
    else if v < 52 then (97 + v - 26) as char
    else if v < 62 then (48 + v - 52) as char
    else if v == 62 then '-' else '_'
  }

  predicate UrlSafe(c: char) {
    'A' <= c <= 'Z' || 'a' <= c <= 'z' || '0' <= c <= '9' || c == '-' || c == '_'
  }

  /** Table 2 of RFC 4648: A to Z, a to z, 0 to 9, then '-' and '_'. */
  lemma UrlSafeAlphabet(v: Six)
    ensures UrlSafe(Symbol(v))
    ensures Symbol(0) == 'A' && Symbol(26) == 'a' && Symbol(52) == '0' && Symbol(62) == '-' && Symbol(63) == '_'
    ensures v !in {25, 51, 61, 62, 63} ==> Symbol(v + 1) as int == Symbol(v) as int + 1
  {}

  /** The value of a symbol. The standard alphabet's '+' and '/' are accepted too. */
  function Sextet(c: char): Option<Six> {
    if 'A' <= c <= 'Z' then Some(c as int - 65)
    else if 'a' <= c <= 'z' then Some(c as int - 97 + 26)
    else if '0' <= c <= '9' then Some(c as int - 48 + 52)
    else if c == '-' || c == '+' then Some(62)
    else if c == '_' || c == '/' then Some(63)
    else None
  }

  lemma SymbolSextet(v: Six)
    ensures Sextet(Symbol(v)) == Some(v)
    ensures Symbol(v) != '=' && Symbol(v) != '.' && Symbol(v) < 128 as char
  {}

  /** The bits of `b`, six at a time; the last group is filled up with zeros. */
  function Sextets(b: Bytes): seq<Six> {
    if b == [] then []
    else if |b| == 1 then [b[0] / 4, b[0] % 4 * 16]
    else if |b| == 2 then [b[0] / 4, b[0] % 4 * 16 + b[1] / 16, b[1] % 16 * 4]
    else [b[0] / 4, b[0] % 4 * 16 + b[1] / 16, b[1] % 16 * 4 + b[2] / 64, b[2] % 64] + Sextets(b[3..])
  }

  function Symbols(v: seq<Six>): string {
    seq(|v|, i requires 0 <= i < |v| => Symbol(v[i]))
  }

  function Padding(n: nat): string {
    if n == 0 then "" else Padding(n - 1) + "="
  }

  /** Padded to a multiple of four symbols. */
  function Encode(b: Bytes): string {
    var v := Sextets(b);
    Symbols(v) + Padding((4 - |v| % 4) % 4)
  }

  function StripPadding(s: string): string {
    if s != "" && s[|s| - 1] == '=' then StripPadding(s[..|s| - 1]) else s
  }

  function Base64Url(b: Bytes): string { StripPadding(Encode(b)) }

  /** The decoder's loop: position in the group of four, bits carried over, padding seen. */
  function Decode(s: string, quad: nat, left: nat, pads: nat, out: Bytes): Result<Bytes, Error>
    requires quad < 4 && left < 64 && (quad == 2 ==> left < 16) && (quad == 3 ==> left < 4)
  {
    if s == "" then if quad == 0 then Ok(out) else Err(BadBase64)
    else if s[0] == '=' then
      if quad >= 2 && quad + pads + 1 >= 4 then Ok(out)
      else Decode(s[1..], quad, left, if quad >= 2 then pads + 1 else pads, out)
    else match Sextet(s[0])
      case None => Decode(s[1..], quad, left, pads, out)
      case Some(v) =>
        if quad == 0 then Decode(s[1..], 1, v, 0, out)
        else if quad == 1 then Decode(s[1..], 2, v % 16, 0, out + [left * 4 + v / 16])
        else if quad == 2 then Decode(s[1..], 3, v % 4, 0, out + [left * 16 + v / 4])
        else Decode(s[1..], 0, 0, 0, out + [left * 64 + v])
  }

  predicate Ascii(s: string) {
    forall i :: 0 <= i < |s| ==> s[i] < 128 as char
  }

  /** Pad to a multiple of four and decode. */
  function Base64UrlDecode(s: string): Result<Bytes, Error> {
    if !Ascii(s) then Err(BadBase64)
    else Decode(s + Padding((4 - |s| % 4) % 4), 0, 0, 0, [])
  }

  // ------------------------------------------------------------ identifiers

  /** The value octets of a DER INTEGER. */
  function SerialBytes(serial: nat): Bytes {
    ToBytes(serial, BitLength(serial) / 8 + 1)
  }

  function Print(aki: Bytes, serial: nat): string {
    Base64Url(aki) + "." + Base64Url(SerialBytes(serial))
  }

  /** Python's `split(".")`. */
  function SplitDots(s: string): (r: seq<string>)
    ensures r != []
  {
    if s == "" then [""]
    else
      var rest := SplitDots(s[1..]);
      if s[0] == '.' then [""] + rest else [[s[0]] + rest[0]] + rest[1..]
  }

  function Parse(value: string): Result<(Bytes, nat), Error> {
    var parts := SplitDots(value);
    if |parts| != 2 then Err(NotTwoParts)
    else match Base64UrlDecode(parts[0])
      case Err(e) => Err(e)
      case Ok(aki) =>
        match Base64UrlDecode(parts[1])
        case Err(e) => Err(e)
        case Ok(serial) =>
          if aki == [] || serial == [] || serial[0] >= 0x80 then Err(EmptyOrNegative)
          else Ok((aki, FromBytes(serial)))
  }

  // ------------------------------------------------------------ proofs

  /** Where padding ends the text: at two signs after two symbols of a group, at one after three;
      before that it is skipped, and after one symbol there is nothing to end. */
  lemma PaddingRule(s: string, left: nat, out: Bytes)
    requires left < 4
    ensures Decode("=" + s, 0, left, 0, out) == Decode(s, 0, left, 0, out) && Decode("=" + s, 1, left, 0, out) == Decode(s, 1, left, 0, out)
    ensures Decode("=" + s, 2, left, 0, out) == Decode(s, 2, left, 1, out) && Decode("=" + s, 2, left, 1, out) == Ok(out)
    ensures Decode("=" + s, 3, left, 0, out) == Ok(out)
  {
    assert ("=" + s)[1..] == s;
  }

  /** The same text in the standard alphabet. */
  function Standard(s: string): (r: string)
    ensures |r| == |s|
  {
    seq(|s|, i requires 0 <= i < |s| => if s[i] == '-' then '+' else if s[i] == '_' then '/' else s[i])
  }

  lemma {:induction false} DecodesStandard(s: string, quad: nat, left: nat, pads: nat, out: Bytes)
    requires quad < 4 && left < 64 && (quad == 2 ==> left < 16) && (quad == 3 ==> left < 4)
    ensures Decode(Standard(s), quad, left, pads, out) == Decode(s, quad, left, pads, out)
  {
    if s != "" {
      assert Standard(s)[1..] == Standard(s[1..]);
      assert Sextet(Standard(s)[0]) == Sextet(s[0]);
      forall q: nat, l: nat, p: nat, o | q < 4 && l < 64 && (q == 2 ==> l < 16) && (q == 3 ==> l < 4)
        ensures Decode(Standard(s[1..]), q, l, p, o) == Decode(s[1..], q, l, p, o)
      {
        DecodesStandard(s[1..], q, l, p, o);
      }
    }
  }

  /** The decoder takes either alphabet for the other. */
  lemma EitherAlphabet(s: string)
    ensures Base64UrlDecode(Standard(s)) == Base64UrlDecode(s)
  {
    var pad := Padding((4 - |s| % 4) % 4);
    StandardPadding(s, (4 - |s| % 4) % 4);
    DecodesStandard(s + pad, 0, 0, 0, []);
    if !Ascii(s) {
      var i :| 0 <= i < |s| && s[i] >= 128 as char;
      assert Standard(s)[i] == s[i];
    }
  }

  lemma {:induction false} StandardPadding(s: string, n: nat)
    ensures Standard(s + Padding(n)) == Standard(s) + Padding(n)
  {
    if n == 0 {
      assert s + "" == s && Standard(s) + "" == Standard(s);
    } else {
      StandardPadding(s, n - 1);
      assert s + Padding(n) == (s + Padding(n - 1)) + "=";
      assert Standard(s + Padding(n)) == Standard(s + Padding(n - 1)) + "=";
    }
  }

  /** ASCII without padding and without separators. */
  predicate Plain(s: string) {
    forall i :: 0 <= i < |s| ==> s[i] != '=' && s[i] != '.' && s[i] < 128 as char
  }

  lemma SymbolsPlain(v: seq<Six>)
    ensures Plain(Symbols(v))
  {
    forall i | 0 <= i < |v| ensures Symbols(v)[i] != '=' && Symbols(v)[i] != '.' && Symbols(v)[i] < 128 as char {
      SymbolSextet(v[i]);
    }
  }

  lemma {:induction false} StripPaddingOff(body: string, n: nat)
    requires Plain(body)
    ensures StripPadding(body + Padding(n)) == body
  {
    var s := body + Padding(n);
    if n == 0 {
      assert s == body;
    } else {
      assert s[..|s| - 1] == body + Padding(n - 1);
      StripPaddingOff(body, n - 1);
    }
  }

  /** One turn of the decoder's loop on a symbol. */
  lemma DecodeSymbol(v: seq<Six>, pad: string, quad: nat, left: nat, out: Bytes)
    requires v != []
    requires quad < 4 && left < 64 && (quad == 2 ==> left < 16) && (quad == 3 ==> left < 4)
    ensures var rest := Symbols(v[1..]) + pad;
            Decode(Symbols(v) + pad, quad, left, 0, out)
            == if quad == 0 then Decode(rest, 1, v[0], 0, out)
               else if quad == 1 then Decode(rest, 2, v[0] % 16, 0, out + [left * 4 + v[0] / 16])
               else if quad == 2 then Decode(rest, 3, v[0] % 4, 0, out + [left * 16 + v[0] / 4])
               else Decode(rest, 0, 0, 0, out + [left * 64 + v[0]])
  {
    var s := Symbols(v) + pad;
    SymbolSextet(v[0]);
    assert s[0] == Symbol(v[0]);
    assert s[1..] == Symbols(v[1..]) + pad;
  }

  /** The first two symbols of a group. */
  lemma DecodePair(v: seq<Six>, pad: string, out: Bytes)
    requires |v| >= 2
    ensures var hi: nat, lo: nat := v[0], v[1];
            var x: Byte := hi * 4 + lo / 16;
            Decode(Symbols(v) + pad, 0, 0, 0, out) == Decode(Symbols(v[2..]) + pad, 2, v[1] % 16, 0, out + [x])
  {
    DecodeSymbol(v, pad, 0, 0, out);
    DecodeSymbol(v[1..], pad, 1, v[0], out);
    assert v[1..][1..] == v[2..];
  }

  lemma DecodeFirst(x: Byte, y: Byte, v: seq<Six>, pad: string, out: Bytes)
    requires |v| >= 2 && v[0] == x / 4 && v[1] == x % 4 * 16 + y / 16
    ensures Decode(Symbols(v) + pad, 0, 0, 0, out) == Decode(Symbols(v[2..]) + pad, 2, y / 16, 0, out + [x])
  {
    DecodePair(v, pad, out);
    assert v[1] / 16 == x % 4 && v[1] % 16 == y / 16;
  }

  lemma DecodeSecond(y: Byte, z: Byte, v: seq<Six>, pad: string, out: Bytes)
    requires v != [] && v[0] == y % 16 * 4 + z / 64
    ensures Decode(Symbols(v) + pad, 2, y / 16, 0, out) == Decode(Symbols(v[1..]) + pad, 3, z / 64, 0, out + [y])
  {
    DecodeSymbol(v, pad, 2, y / 16, out);
    assert v[0] / 4 == y % 16 && v[0] % 4 == z / 64;
  }

  lemma DecodeThird(z: Byte, v: seq<Six>, pad: string, out: Bytes)
    requires v != [] && v[0] == z % 64
    ensures Decode(Symbols(v) + pad, 3, z / 64, 0, out) == Decode(Symbols(v[1..]) + pad, 0, 0, 0, out + [z])
  {
    DecodeSymbol(v, pad, 3, z / 64, out);
  }

  lemma DecodeShort(b: Bytes, out: Bytes)
    requires |b| < 3
    ensures Decode(Encode(b), 0, 0, 0, out) == Ok(out + b)
  {
    if b == [] {
      assert Padding((4 - |Sextets(b)| % 4) % 4) == "";
      assert Encode(b) == "" && out + b == out;
    } else if |b| == 1 {
      DecodeTail(b[0], out);
      assert b == [b[0]];
    } else {
      DecodeTails(b[0], b[1], out);
      assert b == [b[0], b[1]];
    }
  }

  lemma DecodeTail(x: Byte, out: Bytes)
    ensures Decode(Encode([x]), 0, 0, 0, out) == Ok(out + [x])
  {
    var v := Sextets([x]);
    assert Padding(2) == "==" && "=="[1..] == "=";
    DecodeFirst(x, 0, v, "==", out);
    assert Symbols(v[2..]) + "==" == "==";
  }

  lemma PaddingEnds(out: Bytes)
    ensures Decode("=", 3, 0, 0, out) == Ok(out)
  {}

  lemma DecodeTails(x: Byte, y: Byte, out: Bytes)
    ensures Decode(Encode([x, y]), 0, 0, 0, out) == Ok(out + [x, y])
  {
    hide Decode;
    var v := Sextets([x, y]);
    assert Padding(1) == "=";
    DecodeFirst(x, y, v, "=", out);
    DecodeSecond(y, 0, v[2..], "=", out + [x]);
    assert Symbols(v[2..][1..]) + "=" == "=" && out + [x] + [y] == out + [x, y];
    PaddingEnds(out + [x, y]);
  }

  lemma {:induction false} DecodeEncode(b: Bytes, out: Bytes)
    ensures Decode(Encode(b), 0, 0, 0, out) == Ok(out + b)
    decreases |b|
  {
    if |b| < 3 {
      DecodeShort(b, out);
    } else {
      hide Decode;
      var v := Sextets(b);
      DecodeWhole(b, v, Padding((4 - |v| % 4) % 4), out);
      assert v[4..] == Sextets(b[3..]);
      ModFour(4, |v[4..]|);
      DecodeEncode(b[3..], out + b[..3]);
      assert out + b[..3] + b[3..] == out + b;
    }
  }

  lemma DecodeWhole(b: Bytes, v: seq<Six>, pad: string, out: Bytes)
    requires |b| >= 3 && |v| >= 4
    requires v[0] == b[0] / 4 && v[1] == b[0] % 4 * 16 + b[1] / 16 && v[2] == b[1] % 16 * 4 + b[2] / 64 && v[3] == b[2] % 64
    ensures Decode(Symbols(v) + pad, 0, 0, 0, out) == Decode(Symbols(v[4..]) + pad, 0, 0, 0, out + b[..3])
  {
    hide Decode, Symbols;
    DecodeFirst(b[0], b[1], v, pad, out);
    DecodeSecond(b[1], b[2], v[2..], pad, out + [b[0]]);
    assert v[2..][1..] == v[3..];
    DecodeThird(b[2], v[3..], pad, out + [b[0]] + [b[1]]);
    assert v[3..][1..] == v[4..];
    assert out + [b[0]] + [b[1]] + [b[2]] == out + b[..3];
  }

  lemma ModFour(a: nat, b: nat)
    requires a == 4
    ensures (a + b) % 4 == b % 4
  {}

  /** Unpadded base64url gives every byte string back, whatever its length modulo three,
      and its text contains neither '.' nor '='. */
  lemma Base64UrlRoundTrip(b: Bytes)
    ensures Base64UrlDecode(Base64Url(b)) == Ok(b)
    ensures Plain(Base64Url(b))
  {
    hide Decode, Sextets, Symbols, Plain;
    Unpadded(b);
    PaddedAgain(b);
    assert Ascii(Base64Url(b)) by { PlainIsAscii(Base64Url(b)); }
    DecodeEncode(b, []);
    assert [] + b == b;
  }

  /** The text is in the URL-safe alphabet, four symbols for every three bytes, rounded up. */
  lemma Base64UrlIsUrlSafe(b: Bytes)
    ensures forall i :: 0 <= i < |Base64Url(b)| ==> UrlSafe(Base64Url(b)[i])
    ensures |Base64Url(b)| == (|b| * 4 + 2) / 3
  {
    hide Sextets, Plain;
    Unpadded(b);
    SextetCount(b);
    forall i | 0 <= i < |Base64Url(b)| ensures UrlSafe(Base64Url(b)[i]) { UrlSafeAlphabet(Sextets(b)[i]); }
  }

  lemma {:induction false} SextetCount(b: Bytes)
    ensures |Sextets(b)| == (|b| * 4 + 2) / 3
  {
    if |b| >= 3 { SextetCount(b[3..]); }
  }

  lemma Unpadded(b: Bytes)
    ensures Base64Url(b) == Symbols(Sextets(b)) && Plain(Base64Url(b))
  {
    hide Plain, Symbols, Sextets;
    var v := Sextets(b);
    SymbolsPlain(v);
    StripPaddingOff(Symbols(v), (4 - |v| % 4) % 4);
  }

  lemma PaddedAgain(b: Bytes)
    ensures var s := Symbols(Sextets(b)); s + Padding((4 - |s| % 4) % 4) == Encode(b)
  {}

  lemma PlainIsAscii(s: string)
    requires Plain(s)
    ensures Ascii(s)
  {}

  lemma {:induction false} SplitPlain(s: string)
    requires Plain(s)
    ensures SplitDots(s) == [s]
  {
    if s != "" {
      SplitPlain(s[1..]);
      assert [s[0]] + s[1..] == s;
    }
  }

  lemma {:induction false} SplitAtDot(a: string, b: string)
    requires Plain(a) && Plain(b)
    ensures SplitDots(a + "." + b) == [a, b]
  {
    var s := a + "." + b;
    if a == "" {
      SplitPlain(b);
      assert s[1..] == b;
    } else {
      SplitAtDot(a[1..], b);
      assert s[1..] == a[1..] + "." + b;
      assert [a[0]] + a[1..] == a;
    }
  }

  lemma {:induction false} TopBitClear(n: nat, size: nat)
    requires size > 0 && n < 128 * Pow256(size - 1)
    ensures ToBytes(n, size)[0] < 0x80
  {
    if size > 1 {
      TopBitClear(n / 256, size - 1);
      assert ToBytes(n, size)[0] == ToBytes(n / 256, size - 1)[0];
    }
  }

  /** The serial's octets give the serial back, never look negative, and no shorter
      string of octets would do. */
  lemma SerialBytesMinimal(serial: nat, other: Bytes)
    ensures var b := SerialBytes(serial);
            b != [] && FromBytes(b) == serial && b[0] < 0x80
    ensures other != [] && FromBytes(other) == serial && other[0] < 0x80 ==> |SerialBytes(serial)| <= |other|
  {
    var size := BitLength(serial) / 8 + 1;
    BitLengthPow(serial);
    FromToBytes(serial, size);
    TopBitClear(serial, size);
    if other != [] && FromBytes(other) == serial && other[0] < 0x80 {
      PositiveBound(other);
      if |other| < size {
        Pow256Monotone(|other| - 1, size - 2);
      }
    }
  }

  /** 2^(8k-1) <= n < 2^(8k+7) when `BitLength(n) / 8 == k`. */
  lemma {:induction false} BitLengthPow(n: nat)
    ensures n < 128 * Pow256(BitLength(n) / 8)
    ensures BitLength(n) / 8 > 0 ==> 128 * Pow256(BitLength(n) / 8 - 1) <= n
    decreases n
  {
    if n >= 256 {
      BitLengthStep(n);
      BitLengthPow(n / 256);
      assert BitLength(n) / 8 == BitLength(n / 256) / 8 + 1;
      if BitLength(n / 256) / 8 == 0 { assert n / 256 < 128; }
    } else if n > 0 {
      BitLengthSmall(n);
      assert Pow256(1) == 256;
    }
  }

  lemma {:induction false} PositiveBound(b: Bytes)
    requires b != [] && b[0] < 0x80
    ensures FromBytes(b) < 128 * Pow256(|b| - 1)
  {
    if |b| > 1 {
      PositiveBound(b[..|b| - 1]);
      assert FromBytes(b) < 128 * Pow256(|b| - 2) * 256;
    }
  }

  /** Whatever octets are put in an identifier, parsing refuses it if one part is empty or the
      serial would be negative, and otherwise gives the octets and the number they stand for. */
  lemma ParseOfOctets(aki: Bytes, b: Bytes)
    ensures Parse(Base64Url(aki) + "." + Base64Url(b))
         == if aki == [] || b == [] || b[0] > 127 then Err(EmptyOrNegative) else Ok((aki, FromBytes(b)))
  {
    hide Base64Url, Base64UrlDecode, SplitDots;
    Base64UrlRoundTrip(aki);
    Base64UrlRoundTrip(b);
    SplitAtDot(Base64Url(aki), Base64Url(b));
  }

  /** Parsing a printed identifier gives the key identifier and the serial back, for every
      serial of any size and every key identifier that is not empty. */
  lemma CertIdRoundTrip(aki: Bytes, serial: nat)
    ensures Parse(Print(aki, serial)) == if aki != [] then Ok((aki, serial)) else Err(EmptyOrNegative)
  {
    hide Parse, Base64Url, SerialBytes;
    ParseOfOctets(aki, SerialBytes(serial));
    SerialBytesMinimal(serial, []);
  }
}
