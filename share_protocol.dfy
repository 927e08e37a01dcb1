/** The share-link codec ("Starlight Protocol"): a station UUID becomes a
    22-character URL-safe token and back.

    Encoding strips the dashes, reads the 32 hex digits as 16 bytes, XORs
    byte i with the character code of "EARTH"[i mod 5], and writes the
    result in Base64 with the URL-safe alphabet and without padding
    (sections 4 and 5 of RFC 4648). Decoding undoes each step and yields
    None instead of throwing. The XOR is obfuscation, not encryption. */
module ShareProtocol {
  import opened JsBuiltins

  /** One element of a Uint8Array. */
  type byte = x: int | 0 <= x < 256

  /** One Base64 digit value. */
  type sextet = x: int | 0 <= x < 64

  // =====================================================================
  // The XOR keystream

  const KEY: string := "EARTH"

  /** KEY.charCodeAt(i % KEY.length). */
  function KeyByte(i: nat): (k: byte)
  {
    var c := KEY[i % |KEY|];
    assert c == 'E' || c == 'A' || c == 'R' || c == 'T' || c == 'H';
    c as int
  }

  /** The key bytes are 0x45 0x41 0x52 0x54 0x48 ('A' is 0x41, not 0x61). */
  lemma KeyBytes(i: nat)
    ensures i % 5 == 0 ==> KeyByte(i) == 0x45
    ensures i % 5 == 1 ==> KeyByte(i) == 0x41
    ensures i % 5 == 2 ==> KeyByte(i) == 0x52
    ensures i % 5 == 3 ==> KeyByte(i) == 0x54
    ensures i % 5 == 4 ==> KeyByte(i) == 0x48
  {
  }

  /** Bitwise exclusive or of two non-negative integers, bit by bit from the lowest. */
  function BitXor(a: nat, b: nat): nat
    decreases a + b
  {
    if a == 0 && b == 0 then 0
    else 2 * BitXor(a / 2, b / 2) + (a % 2 + b % 2) % 2
  }

  lemma BitXorDigits(a: nat, b: nat)
    ensures BitXor(a, b) / 2 == BitXor(a / 2, b / 2)
    ensures BitXor(a, b) % 2 == (a % 2 + b % 2) % 2
  {
    if a == 0 && b == 0 {
      assert BitXor(a / 2, b / 2) == 0;
    } else {
      var y, d := BitXor(a / 2, b / 2), (a % 2 + b % 2) % 2;
      assert BitXor(a, b) == 2 * y + d;
    }
  }

  lemma SameDigits(z: nat, a: nat)
    requires z / 2 == a / 2 && z % 2 == a % 2
    ensures z == a
  {
  }

  lemma ParityTwice(a: nat, b: nat)
    ensures ((a % 2 + b % 2) % 2 + b % 2) % 2 == a % 2
  {
  }

  /** XOR with the same value twice is the identity. */
  lemma {:induction false} BitXorTwice(a: nat, b: nat)
    ensures BitXor(BitXor(a, b), b) == a
    decreases a + b
  {
    if a == 0 && b == 0 {
      assert BitXor(0, 0) == 0;
    } else {
      var x := BitXor(a, b);
      var z := BitXor(x, b);
      BitXorDigits(a, b);
      BitXorDigits(x, b);
      BitXorTwice(a / 2, b / 2);
      assert z / 2 == a / 2;
      ParityTwice(a, b);
      assert z % 2 == a % 2;
      SameDigits(z, a);
    }
  }

  function Pow2(n: nat): nat
  {
    if n == 0 then 1 else 2 * Pow2(n - 1)
  }

  /** XOR of two n-bit numbers is an n-bit number. */
  lemma {:induction false} BitXorBound(a: nat, b: nat, n: nat)
    requires a < Pow2(n) && b < Pow2(n)
    ensures BitXor(a, b) < Pow2(n)
    decreases n
  {
    if a != 0 || b != 0 {
      BitXorBound(a / 2, b / 2, n - 1);
    }
  }

  /** The `^` of two bytes. */
  function Xor(a: byte, b: byte): byte
  {
    assert Pow2(8) == 256;
    BitXorBound(a, b, 8);
    BitXor(a, b)
  }

  /** The keystream applied to a byte sequence: byte i is XORed with KeyByte(i). */
  function Salt(bytes: seq<byte>): (r: seq<byte>)
    ensures |r| == |bytes|
    ensures forall i | 0 <= i < |bytes| :: r[i] == Xor(bytes[i], KeyByte(i))
  {
    seq(|bytes|, i requires 0 <= i < |bytes| => Xor(bytes[i], KeyByte(i)))
  }

  /** Salting twice gives back the original bytes. */
  lemma SaltTwice(bytes: seq<byte>)
    ensures Salt(Salt(bytes)) == bytes
  {
    forall i | 0 <= i < |bytes|
      ensures Salt(Salt(bytes))[i] == bytes[i]
    {
      BitXorTwice(bytes[i], KeyByte(i));
    }
  }

  // =====================================================================
  // Hexadecimal text

  predicate IsHexDigit(c: char) {
    '0' <= c <= '9' || 'a' <= c <= 'f' || 'A' <= c <= 'F'
  }

  predicate IsLowerHexDigit(c: char) {
    '0' <= c <= '9' || 'a' <= c <= 'f'
  }

  function HexValue(c: char): (v: nat)
    requires IsHexDigit(c)
    ensures v < 16
  {
    if '0' <= c <= '9' then c as int - '0' as int
    else if 'a' <= c <= 'f' then c as int - 'a' as int + 10
    else c as int - 'A' as int + 10
  }

  /** The digit Number.prototype.toString(16) writes for a value below 16. */
  function HexDigit(v: nat): (c: char)
    requires v < 16
    ensures IsLowerHexDigit(c) && HexValue(c) == v
  {
    if v < 10 then ('0' as int + v) as char else ('a' as int + v - 10) as char
  }

  lemma HexDigitOfValue(c: char)
    requires IsLowerHexDigit(c)
    ensures HexDigit(HexValue(c)) == c
  {
  }

  /** The longest prefix of hexadecimal digits. */
  function LeadingHex(s: string): (z: string)
    ensures |z| <= |s| && z == s[..|z|]
    ensures forall k | 0 <= k < |z| :: IsHexDigit(z[k])
  {
    if s != [] && IsHexDigit(s[0]) then [s[0]] + LeadingHex(s[1..]) else []
  }

  /** The value of a string of hexadecimal digits. */
  function HexNumber(z: string): nat
    requires forall k | 0 <= k < |z| :: IsHexDigit(z[k])
  {
    if z == [] then 0 else 16 * HexNumber(z[..|z| - 1]) + HexValue(z[|z| - 1])
  }

  /** parseInt(s, 16): skip leading white space, take an optional sign and an
      optional "0x" prefix, then the longest run of hex digits; None is NaN. */
  function ParseIntHex(s: string): Option<int>
  {
    if s != [] && IsJsWhitespace(s[0]) then ParseIntHex(s[1..]) else ParseSignedHex(s)
  }

  /** parseInt(s, 16) once the leading white space is gone: an optional sign. */
  function ParseSignedHex(t: string): Option<int>
  {
    if t != [] && t[0] == '-' then
      match ParseUnsignedHex(t[1..])
      case None => None
      case Some(n) => Some(-(n as int))
    else if t != [] && t[0] == '+' then ParseUnsignedHex(t[1..])
    else ParseUnsignedHex(t)
  }

  /** After the sign: an optional "0x" or "0X" prefix, then the digits. */
  function ParseUnsignedHex(u: string): Option<nat>
  {
    if |u| >= 2 && u[0] == '0' && (u[1] == 'x' || u[1] == 'X') then ParseHexDigits(u[2..])
    else ParseHexDigits(u)
  }

  /** The longest run of hex digits at the start; None (NaN) when there is none. */
  function ParseHexDigits(v: string): Option<nat>
  {
    var z := LeadingHex(v);
    if z == [] then None else Some(HexNumber(z))
  }

  /** Storing a number into a Uint8Array: NaN becomes 0, any other integer is
      reduced modulo 256. */
  function ToUint8(n: Option<int>): byte
  {
    match n
    case None => 0
    case Some(v) => v % 256
  }

  /** The byte that `parseInt(hex.substring(i, i + 2), 16)` stores. */
  function ParseHexPair(pair: string): byte
  {
    ToUint8(ParseIntHex(pair))
  }

  /** On two hexadecimal digits, parseInt yields the value they spell. */
  lemma ParseHexPairDigits(pair: string)
    requires |pair| == 2 && IsHexDigit(pair[0]) && IsHexDigit(pair[1])
    ensures ParseHexPair(pair) == 16 * HexValue(pair[0]) + HexValue(pair[1])
  {
    ParseIntHexDigits(pair);
    assert pair[..1] == [pair[0]];
    assert HexNumber(pair[..1]) == HexValue(pair[0]);
    assert HexNumber(pair) == 16 * HexNumber(pair[..1]) + HexValue(pair[1]);
  }

  /** A run of hex digits other than "0x…" parses as the number it spells. */
  lemma ParseIntHexDigits(z: string)
    requires |z| >= 2 && forall k | 0 <= k < |z| :: IsHexDigit(z[k])
    ensures ParseIntHex(z) == Some(HexNumber(z))
  {
    assert ParseIntHex(z) == ParseSignedHex(z) by {
      assert !IsJsWhitespace(z[0]);
    }
    assert ParseSignedHex(z) == ParseUnsignedHex(z);
    assert ParseUnsignedHex(z) == ParseHexDigits(z);
    LeadingHexOfDigits(z);
  }

  lemma {:induction false} LeadingHexOfDigits(z: string)
    requires forall k | 0 <= k < |z| :: IsHexDigit(z[k])
    ensures LeadingHex(z) == z
  {
    if z != [] {
      LeadingHexOfDigits(z[1..]);
    }
  }

  /** Step 2 of encoding: the 32 dash-free hex characters as 16 bytes. */
  function HexToBytes(hex: string): (bytes: seq<byte>)
    requires |hex| == 32
    ensures |bytes| == 16
  {
    seq(16, i requires 0 <= i < 16 => ParseHexPair(hex[2 * i..2 * i + 2]))
  }

  /** `b.toString(16).padStart(2, '0')`. */
  function ByteHex(b: byte): (s: string)
    ensures s == [HexDigit(b / 16), HexDigit(b % 16)]
  {
    var digits := if b < 16 then [HexDigit(b)] else [HexDigit(b / 16), HexDigit(b % 16)];
    PadStart(digits, 2, '0')
  }

  /** The bytes as lowercase hex, two digits each, built by appending. */
  function BytesToHex(bytes: seq<byte>): (hex: string)
    ensures |hex| == 2 * |bytes|
  {
    if bytes == [] then ""
    else BytesToHex(bytes[..|bytes| - 1]) + ByteHex(bytes[|bytes| - 1])
  }

  /** Byte i sits at positions 2i and 2i+1, high digit first. */
  lemma {:induction false} BytesToHexAt(bytes: seq<byte>, i: nat)
    requires i < |bytes|
    ensures BytesToHex(bytes)[2 * i] == HexDigit(bytes[i] / 16)
    ensures BytesToHex(bytes)[2 * i + 1] == HexDigit(bytes[i] % 16)
    decreases |bytes|
  {
    var init := bytes[..|bytes| - 1];
    assert BytesToHex(bytes) == BytesToHex(init) + ByteHex(bytes[|bytes| - 1]);
    if i < |bytes| - 1 {
      BytesToHexAt(init, i);
    }
  }

  lemma BytesToHexIsLowerHex(bytes: seq<byte>)
    ensures forall k | 0 <= k < 2 * |bytes| :: IsLowerHexDigit(BytesToHex(bytes)[k])
  {
    forall k | 0 <= k < 2 * |bytes|
      ensures IsLowerHexDigit(BytesToHex(bytes)[k])
    {
      var i := k / 2;
      BytesToHexAt(bytes, i);
      assert k == 2 * i || k == 2 * i + 1;
    }
  }

  /** Inserting the dashes of the 8-4-4-4-12 layout. */
  function FormatUuid(hex: string): (u: string)
    requires |hex| == 32
    ensures |u| == 36
  {
    hex[..8] + "-" + hex[8..12] + "-" + hex[12..16] + "-" + hex[16..20] + "-" + hex[20..]
  }

  predicate IsDashPosition(i: int) {
    i == 8 || i == 13 || i == 18 || i == 23
  }

  /** A UUID in canonical lowercase text form. */
  predicate IsCanonicalUuid(u: string) {
    |u| == 36 &&
    forall i | 0 <= i < 36 :: if IsDashPosition(i) then u[i] == '-' else IsLowerHexDigit(u[i])
  }

  lemma FormatUuidCanonical(hex: string)
    requires |hex| == 32 && forall k | 0 <= k < 32 :: IsLowerHexDigit(hex[k])
    ensures IsCanonicalUuid(FormatUuid(hex))
  {
    var u := FormatUuid(hex);
    forall i | 0 <= i < 36
      ensures if IsDashPosition(i) then u[i] == '-' else IsLowerHexDigit(u[i])
    {
      if i < 8 { assert u[i] == hex[i]; }
      else if 8 < i < 13 { assert u[i] == hex[i - 1]; }
      else if 13 < i < 18 { assert u[i] == hex[i - 2]; }
      else if 18 < i < 23 { assert u[i] == hex[i - 3]; }
      else if 23 < i { assert u[i] == hex[i - 4]; }
    }
  }

  // =====================================================================
  // Base64 (section 4 of RFC 4648) and its URL-safe form (section 5)

  /** Table 1 of RFC 4648: A-Z, a-z, 0-9, '+', '/'. */
  function B64Char(i: sextet): (c: char)
  {
    if i < 26 then ('A' as int + i) as char
    else if i < 52 then ('a' as int + i - 26) as char
    else if i < 62 then ('0' as int + i - 52) as char
    else if i == 62 then '+'
    else '/'
  }

  predicate IsB64Char(c: char) {
    'A' <= c <= 'Z' || 'a' <= c <= 'z' || '0' <= c <= '9' || c == '+' || c == '/'
  }

  function B64Index(c: char): (i: sextet)
    requires IsB64Char(c)
    ensures B64Char(i) == c
  {
    if 'A' <= c <= 'Z' then c as int - 'A' as int
    else if 'a' <= c <= 'z' then c as int - 'a' as int + 26
    else if '0' <= c <= '9' then c as int - '0' as int + 52
    else if c == '+' then 62
    else 63
  }

  lemma B64CharIndex(i: sextet)
    ensures IsB64Char(B64Char(i)) && B64Index(B64Char(i)) == i
  {
  }

  // Three bytes (24 bits) as four 6-bit digits, and back.
  function Sextet0(b0: byte): sextet { b0 / 4 }
  function Sextet1(b0: byte, b1: byte): sextet { (b0 % 4) * 16 + b1 / 16 }
  function Sextet2(b1: byte, b2: byte): sextet { (b1 % 16) * 4 + b2 / 64 }
  function Sextet3(b2: byte): sextet { b2 % 64 }
  function Octet0(i0: sextet, i1: sextet): byte { i0 * 4 + i1 / 16 }
  function Octet1(i1: sextet, i2: sextet): byte { (i1 % 16) * 16 + i2 / 4 }
  function Octet2(i2: sextet, i3: sextet): byte { (i2 % 4) * 64 + i3 }

  lemma OctetsOfSextets(b0: byte, b1: byte, b2: byte)
    ensures Octet0(Sextet0(b0), Sextet1(b0, b1)) == b0
    ensures Octet1(Sextet1(b0, b1), Sextet2(b1, b2)) == b1
    ensures Octet2(Sextet2(b1, b2), Sextet3(b2)) == b2
  {
  }

  /** The 6-bit digit values of a byte sequence: four per three bytes, then
      2 or 3 for a final group of 1 or 2 bytes (its missing bits are zero). */
  function BytesToSextets(b: seq<byte>): seq<sextet>
    decreases |b|
  {
    if |b| >= 3 then
      [Sextet0(b[0]), Sextet1(b[0], b[1]), Sextet2(b[1], b[2]), Sextet3(b[2])] + BytesToSextets(b[3..])
    else if |b| == 2 then [Sextet0(b[0]), Sextet1(b[0], b[1]), Sextet2(b[1], 0)]
    else if |b| == 1 then [Sextet0(b[0]), Sextet1(b[0], 0)]
    else []
  }

  /** The bytes carried by 6-bit digit values: whole groups of four give
      three bytes, a final group of 3 or 2 gives 2 or 1 byte, and the
      leftover bits are dropped. */
  function SextetsToBytes(x: seq<sextet>): seq<byte>
    requires |x| % 4 != 1
    decreases |x|
  {
    if |x| >= 4 then
      [Octet0(x[0], x[1]), Octet1(x[1], x[2]), Octet2(x[2], x[3])] + SextetsToBytes(x[4..])
    else if |x| == 3 then [Octet0(x[0], x[1]), Octet1(x[1], x[2])]
    else if |x| == 2 then [Octet0(x[0], x[1])]
    else []
  }

  /** Four digits per whole group of three bytes, plus 2 or 3 for a final
      group of 1 or 2 bytes. */
  lemma {:induction false} SextetsLength(b: seq<byte>)
    ensures |BytesToSextets(b)| == (|b| / 3) * 4 + (if |b| % 3 == 0 then 0 else |b| % 3 + 1)
    decreases |b|
  {
    if |b| >= 3 {
      SextetsLength(b[3..]);
      assert |b| / 3 == |b[3..]| / 3 + 1;
    }
  }

  /** The digit count never leaves remainder 1 modulo 4. */
  lemma {:induction false} SextetsLengthMod(b: seq<byte>)
    ensures |BytesToSextets(b)| % 4 == (if |b| % 3 == 0 then 0 else |b| % 3 + 1)
    decreases |b|
  {
    if |b| >= 3 {
      SextetsLengthMod(b[3..]);
      assert |BytesToSextets(b)| == |BytesToSextets(b[3..])| + 4;
      AddFour(|BytesToSextets(b[3..])|);
    }
  }

  lemma AddFour(n: nat)
    ensures (n + 4) % 4 == n % 4
  {
  }

  lemma SextetsOfGroup(b: seq<byte>)
    requires |b| >= 3 && |BytesToSextets(b[3..])| % 4 != 1
    ensures |BytesToSextets(b)| % 4 != 1
    ensures SextetsToBytes(BytesToSextets(b)) == b[..3] + SextetsToBytes(BytesToSextets(b[3..]))
  {
    var x := BytesToSextets(b);
    assert x[4..] == BytesToSextets(b[3..]);
    AddFour(|x[4..]|);
    OctetsOfSextets(b[0], b[1], b[2]);
    assert b[..3] == [b[0], b[1], b[2]];
  }

  lemma SextetsOfLastTwo(b0: byte, b1: byte)
    ensures SextetsToBytes(BytesToSextets([b0, b1])) == [b0, b1]
  {
    var x := [Sextet0(b0), Sextet1(b0, b1), Sextet2(b1, 0)];
    assert BytesToSextets([b0, b1]) == x;
    assert SextetsToBytes(x) == [Octet0(x[0], x[1]), Octet1(x[1], x[2])];
    OctetsOfSextets(b0, b1, 0);
  }

  lemma SextetsOfLastOne(b0: byte)
    ensures SextetsToBytes(BytesToSextets([b0])) == [b0]
  {
    var x := [Sextet0(b0), Sextet1(b0, 0)];
    assert BytesToSextets([b0]) == x;
    assert SextetsToBytes(x) == [Octet0(x[0], x[1])];
    OctetsOfSextets(b0, 0, 0);
  }

  /** The digits carry the bytes back. */
  lemma {:induction false} SextetsRoundTrip(b: seq<byte>)
    ensures |BytesToSextets(b)| % 4 != 1
    ensures SextetsToBytes(BytesToSextets(b)) == b
    decreases |b|
  {
    SextetsLengthMod(b);
    if |b| >= 3 {
      SextetsRoundTrip(b[3..]);
      SextetsOfGroup(b);
      assert b == b[..3] + b[3..];
    } else if |b| == 2 {
      SextetsOfLastTwo(b[0], b[1]);
      assert b == [b[0], b[1]];
    } else if |b| == 1 {
      SextetsOfLastOne(b[0]);
      assert b == [b[0]];
    }
  }

  /** The Base64 digits of a byte sequence, without the '=' padding. */
  function EncodeGroups(b: seq<byte>): (s: string)
    ensures |s| == |BytesToSextets(b)|
  {
    var x := BytesToSextets(b);
    seq(|x|, k requires 0 <= k < |x| => B64Char(x[k]))
  }

  predicate AllB64(s: string) {
    forall k | 0 <= k < |s| :: IsB64Char(s[k])
  }

  /** The digit values of Base64 text. */
  function DigitValues(s: string): (x: seq<sextet>)
    requires AllB64(s)
    ensures |x| == |s|
  {
    seq(|s|, k requires 0 <= k < |s| => B64Index(s[k]))
  }

  /** The bytes read back from unpadded Base64 digits. */
  function DecodeGroups(s: string): seq<byte>
    requires |s| % 4 != 1 && AllB64(s)
  {
    SextetsToBytes(DigitValues(s))
  }

  /** The encoder writes only alphabet characters, and reading their values
      gives back the digit values written. */
  lemma DigitValuesOfEncoded(b: seq<byte>)
    ensures AllB64(EncodeGroups(b))
    ensures DigitValues(EncodeGroups(b)) == BytesToSextets(b)
  {
    var x := BytesToSextets(b);
    forall k | 0 <= k < |x|
      ensures IsB64Char(EncodeGroups(b)[k]) && B64Index(EncodeGroups(b)[k]) == x[k]
    {
      B64CharIndex(x[k]);
    }
  }

  /** Reading back the digits of any byte sequence gives the sequence. */
  lemma DecodeEncodeGroups(b: seq<byte>)
    ensures |EncodeGroups(b)| % 4 != 1 && AllB64(EncodeGroups(b))
    ensures DecodeGroups(EncodeGroups(b)) == b
  {
    SextetsRoundTrip(b);
    DigitValuesOfEncoded(b);
  }

  function Repeat(c: char, n: nat): (s: string)
    ensures |s| == n && forall k | 0 <= k < n :: s[k] == c
  {
    seq(n, _ => c)
  }

  /** Standard Base64 with '=' padding to a multiple of four characters. */
  function Base64Encode(b: seq<byte>): (s: string)
    ensures |s| % 4 == 0
  {
    SextetsLengthMod(b);
    EncodeGroups(b) + Repeat('=', if |b| % 3 == 0 then 0 else 3 - |b| % 3)
  }

  /** A "binary string": one character per byte, as String.fromCharCode builds it. */
  function ToBinary(b: seq<byte>): (s: string)
    ensures |s| == |b| && forall k | 0 <= k < |b| :: s[k] as int == b[k]
  {
    seq(|b|, k requires 0 <= k < |b| => b[k] as char)
  }

  /** charCodeAt of each character, stored into a Uint8Array. */
  function FromBinary(s: string): (b: seq<byte>)
    ensures |b| == |s| && forall k | 0 <= k < |s| :: b[k] == (s[k] as int) % 256
  {
    seq(|s|, k requires 0 <= k < |s| => (s[k] as int) % 256)
  }

  lemma FromToBinary(b: seq<byte>)
    ensures FromBinary(ToBinary(b)) == b
  {
  }

  /** btoa: fails (throws) on a character above U+00FF, otherwise Base64 of
      the character codes. */
  function Btoa(binary: string): Option<string>
  {
    if forall k | 0 <= k < |binary| :: binary[k] as int < 256 then
      Some(Base64Encode(seq(|binary|, k requires 0 <= k < |binary| => binary[k] as int)))
    else None
  }

  predicate IsAsciiWhitespace(c: char) {
    c == '\t' || c == '\n' || c as int == 0x0C || c == '\r' || c == ' '
  }

  function RemoveAsciiWhitespace(s: string): (r: string)
    ensures (forall k | 0 <= k < |s| :: !IsAsciiWhitespace(s[k])) ==> r == s
  {
    if s == [] then ""
    else (if IsAsciiWhitespace(s[0]) then "" else [s[0]]) + RemoveAsciiWhitespace(s[1..])
  }

  /** atob, by the forgiving-base64 decode of the HTML standard: drop ASCII
      white space; when the length is a multiple of four drop one or two
      final '='; fail when the length leaves remainder 1 or a character is
      outside the alphabet; otherwise decode. */
  function Atob(data: string): (r: Option<string>)
  {
    var t := RemoveAsciiWhitespace(data);
    var u := if |t| % 4 == 0 && |t| >= 2 && t[|t| - 2..] == "==" then t[..|t| - 2]
             else if |t| % 4 == 0 && |t| >= 1 && t[|t| - 1] == '=' then t[..|t| - 1]
             else t;
    if |u| % 4 == 1 then None
    else if !AllB64(u) then None
    else Some(ToBinary(DecodeGroups(u)))
  }

  /** `.replace(/\+/g, '-').replace(/\//g, '_')`. */
  function ToUrlAlphabet(s: string): string
  {
    ReplaceChar(ReplaceChar(s, '+', "-"), '/', "_")
  }

  /** `.replace(/-/g, '+').replace(/_/g, '/')`. */
  function FromUrlAlphabet(s: string): string
  {
    ReplaceChar(ReplaceChar(s, '-', "+"), '_', "/")
  }

  /** `.replace(/=+$/, '')`: drop the trailing run of '='. */
  function StripTrailingPadding(s: string): (r: string)
    ensures |r| <= |s| && r == s[..|r|]
    ensures r == [] || r[|r| - 1] != '='
    ensures forall k | |r| <= k < |s| :: s[k] == '='
  {
    if s != [] && s[|s| - 1] == '=' then StripTrailingPadding(s[..|s| - 1]) else s
  }

  /** The string after the padding loop: '=' appended until the length is a
      multiple of four. */
  function Padded(s: string): (r: string)
    ensures |r| % 4 == 0
  {
    s + Repeat('=', (4 - |s| % 4) % 4)
  }

  // =====================================================================
  // The codec

  /** What encodeStationId returns. */
  function EncodeToken(uuid: string): (r: string)
    ensures uuid == "" ==> r == ""
    ensures uuid != "" && |ReplaceChar(uuid, '-', "")| != 32 ==> r == uuid
  {
    if uuid == "" then ""
    else
      var hex := ReplaceChar(uuid, '-', "");
      if |hex| != 32 then uuid
      else
        match Btoa(ToBinary(Salt(HexToBytes(hex))))
        case None => uuid
        case Some(b64) => StripTrailingPadding(ToUrlAlphabet(b64))
  }

  /** What decodeStationId returns; None stands for null. */
  function DecodeToken(code: string): (r: Option<string>)
    ensures code == "" ==> r.None?
    ensures var binary := Atob(Padded(FromUrlAlphabet(code)));
      binary.None? || |binary.value| != 16 ==> r.None?
    ensures var binary := Atob(Padded(FromUrlAlphabet(code)));
      code != "" && binary.Some? && |binary.value| == 16 ==> r.Some?
    ensures r.Some? ==> IsCanonicalUuid(r.value)
  {
    if code == "" then None
    else
      match Atob(Padded(FromUrlAlphabet(code)))
      case None => None
      case Some(binary) =>
        if |binary| != 16 then None
        else
          var hex := BytesToHex(Salt(FromBinary(binary)));
          BytesToHexIsLowerHex(Salt(FromBinary(binary)));
          FormatUuidCanonical(hex);
          Some(FormatUuid(hex))
  }

  /** Step 2 of encodeStationId: the loop that stores parseInt of each pair
      of hex characters into a new Uint8Array of 16. */
  method ParseHexBytes(hex: string) returns (bytes: array<byte>)
    requires |hex| == 32
    ensures fresh(bytes) && bytes[..] == HexToBytes(hex)
  {
    bytes := new byte[16](_ => 0);
    var i := 0;
    while i < 32
      invariant 0 <= i <= 32 && i % 2 == 0
      invariant forall j | 0 <= j < i / 2 :: bytes[j] == HexToBytes(hex)[j]
    {
      bytes[i / 2] := ParseHexPair(hex[i..i + 2]);
      i := i + 2;
    }
  }

  /** The XOR loop both directions share: a new Uint8Array whose byte i is
      src[i] ^ KEY.charCodeAt(i % KEY.length). */
  method XorWithKey(src: array<byte>) returns (dst: array<byte>)
    ensures fresh(dst) && dst[..] == Salt(src[..])
  {
    dst := new byte[src.Length](_ => 0);
    for k := 0 to src.Length
      invariant forall j | 0 <= j < k :: dst[j] == Xor(src[j], KeyByte(j))
    {
      dst[k] := Xor(src[k], KeyByte(k));
    }
  }

  /** The loop `binary += String.fromCharCode(salted[i])`. */
  method BinaryString(salted: array<byte>) returns (binary: string)
    ensures binary == ToBinary(salted[..])
  {
    binary := "";
    for k := 0 to salted.Length
      invariant binary == ToBinary(salted[..k])
    {
      binary := binary + [salted[k] as char];
    }
    assert salted[..salted.Length] == salted[..];
  }

  /** encodeStationId, step by step over Uint8Arrays. */
  method EncodeStationId(uuid: string) returns (token: string)
    ensures token == EncodeToken(uuid)
  {
    if uuid == "" {
      return "";
    }
    var hex := ReplaceChar(uuid, '-', "");
    if |hex| != 32 {
      return uuid;
    }
    var bytes := ParseHexBytes(hex);
    var salted := XorWithKey(bytes);
    var binary := BinaryString(salted);
    match Btoa(binary)
    case None =>
      token := uuid;
    case Some(b64) =>
      token := StripTrailingPadding(ToUrlAlphabet(b64));
  }

  /** The padding loop `while (base64.length % 4) base64 += '='`. */
  method PadBase64(start: string) returns (base64: string)
    ensures base64 == Padded(start)
  {
    ghost var missing := (4 - |start| % 4) % 4;
    assert (|start| + missing) % 4 == 0;
    base64 := start;
    while |base64| % 4 != 0
      invariant |start| <= |base64| <= |start| + missing
      invariant base64 == start + Repeat('=', |base64| - |start|)
      decreases |start| + missing - |base64|
    {
      base64 := base64 + "=";
    }
  }

  /** The loop `bytes[i] = binary.charCodeAt(i)` over a new Uint8Array of 16. */
  method CharCodes(binary: string) returns (bytes: array<byte>)
    requires |binary| == 16
    ensures fresh(bytes) && bytes[..] == FromBinary(binary)
  {
    bytes := new byte[16](_ => 0);
    for k := 0 to 16
      invariant forall j | 0 <= j < k :: bytes[j] == (binary[j] as int) % 256
    {
      bytes[k] := (binary[k] as int) % 256;
    }
  }

  /** The loop `hex += originalBytes[i].toString(16).padStart(2, '0')`. */
  method HexString(original: array<byte>) returns (hex: string)
    ensures hex == BytesToHex(original[..])
  {
    hex := "";
    for k := 0 to original.Length
      invariant hex == BytesToHex(original[..k])
    {
      assert original[..k + 1][..k] == original[..k];
      hex := hex + ByteHex(original[k]);
    }
    assert original[..original.Length] == original[..];
  }

  /** decodeStationId, step by step; None stands for null (including the
      value returned when atob throws). */
  method DecodeStationId(code: string) returns (r: Option<string>)
    ensures r == DecodeToken(code)
  {
    if code == "" {
      return None;
    }
    var base64 := PadBase64(FromUrlAlphabet(code));
    var decoded := Atob(base64);
    if decoded.None? {
      return None;
    }
    var binary := decoded.value;
    if |binary| != 16 {
      return None;
    }
    var bytes := CharCodes(binary);
    var original := XorWithKey(bytes);
    var hex := HexString(original);
    r := Some(FormatUuid(hex));
  }

  // =====================================================================
  // Laws of the codec

  /** A string of URL-safe Base64 digits: no '+', '/' or '='. */
  predicate IsUrlSafeToken(t: string) {
    forall k | 0 <= k < |t| :: t[k] != '+' && t[k] != '/' && t[k] != '='
  }

  /** btoa accepts every binary string built from bytes. */
  lemma BtoaOfBytes(b: seq<byte>)
    ensures Btoa(ToBinary(b)) == Some(Base64Encode(b))
  {
    var binary := ToBinary(b);
    assert seq(|binary|, k requires 0 <= k < |binary| => binary[k] as int) == b;
  }

  /** Sixteen bytes take 22 digits and two '=' of padding. */
  lemma Base64OfSixteen(b: seq<byte>)
    requires |b| == 16
    ensures |EncodeGroups(b)| == 22
    ensures Base64Encode(b) == EncodeGroups(b) + "=="
  {
    SextetsLength(b);
    assert Repeat('=', 2) == "==";
  }

  /** Switching to the URL-safe alphabet and back restores Base64 digits,
      and the URL-safe text has no '+', '/' or '='. */
  lemma UrlAlphabetRoundTrip(s: string)
    requires AllB64(s)
    ensures FromUrlAlphabet(ToUrlAlphabet(s)) == s
    ensures IsUrlSafeToken(ToUrlAlphabet(s))
    ensures |ToUrlAlphabet(s)| == |s|
  {
    var a := ReplaceChar(s, '+', "-");
    ReplaceCharPointwise(s, '+', '-');
    var t := ReplaceChar(a, '/', "_");
    ReplaceCharPointwise(a, '/', '_');
    var c := ReplaceChar(t, '-', "+");
    ReplaceCharPointwise(t, '-', '+');
    var d := ReplaceChar(c, '_', "/");
    ReplaceCharPointwise(c, '_', '/');
    assert d == s;
  }

  /** `.replace(/=+$/, '')` removes exactly the '=' appended to a string that
      does not itself end in '='. */
  lemma {:induction false} StripAppendedPadding(t: string, n: nat)
    requires t == [] || t[|t| - 1] != '='
    ensures StripTrailingPadding(t + Repeat('=', n)) == t
    decreases n
  {
    if n == 0 {
      assert t + Repeat('=', 0) == t;
    } else {
      var s := t + Repeat('=', n);
      assert s[..|s| - 1] == t + Repeat('=', n - 1);
      StripAppendedPadding(t, n - 1);
    }
  }

  /** The token of a 32-digit input is the URL-safe Base64 digits of its salted
      bytes: 22 characters, none of them '+', '/' or '='. */
  lemma EncodeTokenShape(uuid: string)
    requires uuid != "" && |ReplaceChar(uuid, '-', "")| == 32
    ensures EncodeToken(uuid) == ToUrlAlphabet(EncodeGroups(Salt(HexToBytes(ReplaceChar(uuid, '-', "")))))
    ensures |EncodeToken(uuid)| == 22 && IsUrlSafeToken(EncodeToken(uuid))
  {
    var b := Salt(HexToBytes(ReplaceChar(uuid, '-', "")));
    var e := EncodeGroups(b);
    BtoaOfBytes(b);
    Base64OfSixteen(b);
    UrlAlphabetRoundTrip(e);
    var t := ToUrlAlphabet(e);
    ReplaceCharAppend(e, "==", '+', "-");
    ReplaceCharAppend(ReplaceChar(e, '+', "-"), "==", '/', "_");
    assert ToUrlAlphabet(e + "==") == t + "==";
    assert Repeat('=', 2) == "==";
    StripAppendedPadding(t, 2);
  }

  /** atob on Base64 digits padded to a multiple of four gives back the
      bytes they encode. */
  lemma AtobOfEncoded(b: seq<byte>)
    requires |b| == 16
    ensures Atob(EncodeGroups(b) + "==") == Some(ToBinary(b))
  {
    var e := EncodeGroups(b);
    var t := e + "==";
    Base64OfSixteen(b);
    assert forall k | 0 <= k < |t| :: !IsAsciiWhitespace(t[k]);
    assert RemoveAsciiWhitespace(t) == t;
    assert t[|t| - 2..] == "==";
    assert t[..|t| - 2] == e;
    DecodeEncodeGroups(b);
  }

  /** Decoding the token of any 16 salted bytes removes the salt and formats
      the bytes as a canonical UUID. */
  lemma DecodeTokenOfBytes(b: seq<byte>)
    requires |b| == 16
    ensures DecodeToken(ToUrlAlphabet(EncodeGroups(b))) == Some(FormatUuid(BytesToHex(Salt(b))))
  {
    var e := EncodeGroups(b);
    Base64OfSixteen(b);
    UrlAlphabetRoundTrip(e);
    var code := ToUrlAlphabet(e);
    assert code != "";
    assert Padded(e) == e + "==";
    AtobOfEncoded(b);
    FromToBinary(b);
  }

  /** Two lowercase hex digits read as a byte and written back give the same digits. */
  lemma HexPairRoundTrip(pair: string)
    requires |pair| == 2 && IsLowerHexDigit(pair[0]) && IsLowerHexDigit(pair[1])
    ensures HexDigit(ParseHexPair(pair) / 16) == pair[0]
    ensures HexDigit(ParseHexPair(pair) % 16) == pair[1]
  {
    ParseHexPairDigits(pair);
    HexDigitOfValue(pair[0]);
    HexDigitOfValue(pair[1]);
  }

  /** Two hex digits read as a byte and written back give the same digits
      in lowercase. */
  lemma HexBytesRoundTrip(hex: string)
    requires |hex| == 32 && forall k | 0 <= k < 32 :: IsLowerHexDigit(hex[k])
    ensures BytesToHex(HexToBytes(hex)) == hex
  {
    var bytes := HexToBytes(hex);
    forall i | 0 <= i < 16
      ensures BytesToHex(bytes)[2 * i] == hex[2 * i]
      ensures BytesToHex(bytes)[2 * i + 1] == hex[2 * i + 1]
    {
      HexPairRoundTrip(hex[2 * i..2 * i + 2]);
      BytesToHexAt(bytes, i);
    }
    forall k | 0 <= k < 32
      ensures BytesToHex(bytes)[k] == hex[k]
    {
      assert k == 2 * (k / 2) || k == 2 * (k / 2) + 1;
    }
  }

  lemma StripOneDash(p: string, q: string)
    requires '-' !in p
    ensures ReplaceChar(p + "-" + q, '-', "") == p + ReplaceChar(q, '-', "")
  {
    var dash := "-";
    ReplaceCharAppend(p + dash, q, '-', "");
    ReplaceCharAppend(p, dash, '-', "");
    var a := ReplaceChar(p, '-', "");
    var d := ReplaceChar(dash, '-', "");
    assert a == p;
    assert d == [];
    assert a + d == p;
  }

  /** The dash-free hex of a canonical UUID: its five groups side by side. */
  function UuidGroups(u: string): (hex: string)
    requires IsCanonicalUuid(u)
    ensures |hex| == 32
  {
    u[..8] + (u[9..13] + (u[14..18] + (u[19..23] + u[24..])))
  }

  lemma CanonicalPieces(u: string)
    requires IsCanonicalUuid(u)
    ensures u == u[..8] + "-" + u[9..]
    ensures u[9..] == u[9..13] + "-" + u[14..]
    ensures u[14..] == u[14..18] + "-" + u[19..]
    ensures u[19..] == u[19..23] + "-" + u[24..]
    ensures '-' !in u[..8] && '-' !in u[9..13] && '-' !in u[14..18]
    ensures '-' !in u[19..23] && '-' !in u[24..]
  {
  }

  /** replace(/-/g, '') on a canonical UUID leaves its five groups. */
  lemma StripDashesGroups(u: string)
    requires IsCanonicalUuid(u)
    ensures ReplaceChar(u, '-', "") == UuidGroups(u)
  {
    CanonicalPieces(u);
    StripOneDash(u[19..23], u[24..]);
    StripOneDash(u[14..18], u[19..]);
    StripOneDash(u[9..13], u[14..]);
    StripOneDash(u[..8], u[9..]);
  }

  lemma UuidGroupsAt(u: string, k: nat)
    requires IsCanonicalUuid(u) && k < 32
    ensures UuidGroups(u)[k] == u[if k < 8 then k else if k < 12 then k + 1
                                  else if k < 16 then k + 2 else if k < 20 then k + 3 else k + 4]
  {
  }

  /** Putting the dashes back into the groups gives the UUID. */
  lemma FormatUuidGroups(u: string)
    requires IsCanonicalUuid(u)
    ensures FormatUuid(UuidGroups(u)) == u
  {
    var hex := UuidGroups(u);
    forall i | 0 <= i < 36
      ensures FormatUuid(hex)[i] == u[i]
    {
      if i < 8 { UuidGroupsAt(u, i); }
      else if 8 < i < 13 { UuidGroupsAt(u, i - 1); }
      else if 13 < i < 18 { UuidGroupsAt(u, i - 2); }
      else if 18 < i < 23 { UuidGroupsAt(u, i - 3); }
      else if 23 < i { UuidGroupsAt(u, i - 4); }
    }
  }

  /** A canonical UUID without its dashes is 32 lowercase hex digits that
      format back to the UUID. */
  lemma StripDashes(u: string)
    requires IsCanonicalUuid(u)
    ensures |ReplaceChar(u, '-', "")| == 32
    ensures forall k | 0 <= k < 32 :: IsLowerHexDigit(ReplaceChar(u, '-', "")[k])
    ensures FormatUuid(ReplaceChar(u, '-', "")) == u
  {
    StripDashesGroups(u);
    forall k | 0 <= k < 32
      ensures IsLowerHexDigit(UuidGroups(u)[k])
    {
      UuidGroupsAt(u, k);
    }
    FormatUuidGroups(u);
  }

  /** Every canonical UUID survives a trip through its share token. */
  lemma RoundTrip(u: string)
    requires IsCanonicalUuid(u)
    ensures DecodeToken(EncodeToken(u)) == Some(u)
  {
    var hex := ReplaceChar(u, '-', "");
    StripDashes(u);
    var bytes := HexToBytes(hex);
    EncodeTokenShape(u);
    DecodeTokenOfBytes(Salt(bytes));
    SaltTwice(bytes);
    HexBytesRoundTrip(hex);
  }

  /** The token of a canonical UUID is 22 URL-safe characters. */
  lemma TokenOfCanonicalUuid(u: string)
    requires IsCanonicalUuid(u)
    ensures |EncodeToken(u)| == 22 && IsUrlSafeToken(EncodeToken(u))
  {
    StripDashes(u);
    EncodeTokenShape(u);
  }

  lemma {:induction false} KeptByWhitespaceRemoval(s: string, c: char)
    requires c in s && !IsAsciiWhitespace(c)
    ensures c in RemoveAsciiWhitespace(s)
    decreases |s|
  {
    if s[0] != c {
      KeptByWhitespaceRemoval(s[1..], c);
    }
  }

  /** atob fails on text holding a character that is neither a Base64 digit,
      '=' nor ASCII white space. */
  lemma AtobRejectsForeignChar(data: string, c: char)
    requires c in data && !IsB64Char(c) && c != '=' && !IsAsciiWhitespace(c)
    ensures Atob(data).None?
  {
    var t := RemoveAsciiWhitespace(data);
    KeptByWhitespaceRemoval(data, c);
    var j :| 0 <= j < |t| && t[j] == c;
    var u := if |t| % 4 == 0 && |t| >= 2 && t[|t| - 2..] == "==" then t[..|t| - 2]
             else if |t| % 4 == 0 && |t| >= 1 && t[|t| - 1] == '=' then t[..|t| - 1]
             else t;
    assert j < |u| && u[j] == c;
  }

  /** Decoding fails on a token holding a character that neither alphabet
      uses, that is not '=' and that is not ASCII white space. */
  lemma DecodeRejectsForeignChar(code: string, k: nat)
    requires k < |code|
    requires !IsB64Char(code[k]) && code[k] !in "-_=" && !IsAsciiWhitespace(code[k])
    ensures DecodeToken(code).None?
  {
    var c := code[k];
    var a := ReplaceChar(code, '-', "+");
    ReplaceCharPointwise(code, '-', '+');
    var s := ReplaceChar(a, '_', "/");
    ReplaceCharPointwise(a, '_', '/');
    assert s == FromUrlAlphabet(code) && s[k] == c;
    assert Padded(s)[k] == c;
    AtobRejectsForeignChar(Padded(s), c);
  }

  /** For instance, "not-a-valid-token!!" decodes to null. */
  lemma DecodeRejectsExample()
    ensures DecodeToken("not-a-valid-token!!") == None
  {
    DecodeRejectsForeignChar("not-a-valid-token!!", 17);
  }
}
