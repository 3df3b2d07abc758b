/** Field names: what Go's JSON decoder makes of a quoted key, what its encoder makes
    of a name, and exactly when the two are inverse. Names are byte strings, as in Go. */
module KeyNames {
  import opened Options
  import opened Bytes
  import opened JsonGrammar

  const REPLACEMENT: nat := 0xFFFD

  datatype Rune = Rune(value: nat, size: nat)

  predicate IsCont(b: byte) { 0x80 <= b <= 0xBF }

  predicate TwoByte(b: seq<byte>) { |b| >= 2 && 0xC2 <= b[0] <= 0xDF && IsCont(b[1]) }

  predicate ThreeByte(b: seq<byte>) {
    && |b| >= 3 && 0xE0 <= b[0] <= 0xEF && IsCont(b[1]) && IsCont(b[2])
    && (b[0] == 0xE0 ==> b[1] >= 0xA0) && (b[0] == 0xED ==> b[1] <= 0x9F)
  }

  predicate FourByte(b: seq<byte>) {
    && |b| >= 4 && 0xF0 <= b[0] <= 0xF4 && IsCont(b[1]) && IsCont(b[2]) && IsCont(b[3])
    && (b[0] == 0xF0 ==> b[1] >= 0x90) && (b[0] == 0xF4 ==> b[1] <= 0x8F)
  }

  function Sextets(a: int, b: int, c: int, d: int): int { a * 262144 + b * 4096 + c * 64 + d }

  /** The first UTF-8 sequence of b, or the replacement rune for one byte that starts none. */
  function DecodeRune(b: seq<byte>): (r: Rune)
    requires b != []
    ensures 1 <= r.size <= |b| && r.size <= 4
    ensures r.value <= 0x10FFFF && !(0xD800 <= r.value <= 0xDFFF)
  {
    if b[0] < 0x80 then Rune(b[0], 1)
    else if TwoByte(b) then Rune(Sextets(0, 0, b[0] - 0xC0, b[1] - 0x80), 2)
    else if ThreeByte(b) then Rune(Sextets(0, b[0] - 0xE0, b[1] - 0x80, b[2] - 0x80), 3)
    else if FourByte(b) then Rune(Sextets(b[0] - 0xF0, b[1] - 0x80, b[2] - 0x80, b[3] - 0x80), 4)
    else Rune(REPLACEMENT, 1)
  }

  function EncodeRune(r: nat): (b: seq<byte>)
    requires r <= 0x10FFFF
  {
    if r < 0x80 then [r]
    else if r < 0x800 then [0xC0 + r / 64, 0x80 + r % 64]
    else if r < 0x10000 then [0xE0 + r / 4096, 0x80 + r / 64 % 64, 0x80 + r % 64]
    else [0xF0 + r / 262144, 0x80 + r / 4096 % 64, 0x80 + r / 64 % 64, 0x80 + r % 64]
  }

  predicate Broken(r: Rune) { r.value == REPLACEMENT && r.size == 1 }

  ghost predicate IsUtf8(n: seq<byte>)
    decreases |n|
  {
    n == [] || (!Broken(DecodeRune(n)) && IsUtf8(n[DecodeRune(n).size..]))
  }

  /** Every byte that belongs to no UTF-8 sequence becomes U+FFFD. */
  ghost function Repaired(n: seq<byte>): seq<byte>
    decreases |n|
  {
    if n == [] then [] else EncodeRune(DecodeRune(n).value) + Repaired(n[DecodeRune(n).size..])
  }

  // ----- decoding a key

  function HexValue(b: byte): (v: nat)
    ensures v < 16
  {
    if IsDigit(b) then b - ZERO
    else if 0x61 <= b <= 0x66 then b - 0x61 + 10
    else if 0x41 <= b <= 0x46 then b - 0x41 + 10
    else 0
  }

  function Hex4(b: seq<byte>): (v: nat)
    requires |b| >= 4
    ensures v <= 0xFFFF
  {
    HexValue(b[0]) * 4096 + HexValue(b[1]) * 256 + HexValue(b[2]) * 16 + HexValue(b[3])
  }

  predicate IsUnicodeEscape(b: seq<byte>) {
    |b| >= 6 && b[0] == BACKSLASH && b[1] == SMALL_U && IsHex(b[2]) && IsHex(b[3]) && IsHex(b[4]) && IsHex(b[5])
  }

  predicate IsHigh(r: nat) { 0xD800 <= r <= 0xDBFF }
  predicate IsLow(r: nat) { 0xDC00 <= r <= 0xDFFF }

  /** Two numeric escapes that are the halves of one code point. */
  predicate StartsPair(b: seq<byte>) {
    IsUnicodeEscape(b) && IsHigh(Hex4(b[2..])) && IsUnicodeEscape(b[6..]) && IsLow(Hex4(b[8..]))
  }

  function PairRune(high: nat, low: nat): (r: nat)
    requires IsHigh(high) && IsLow(low)
    ensures r <= 0x10FFFF
  {
    0x10000 + (high - 0xD800) * 1024 + (low - 0xDC00)
  }

  /** A half without the other is replaced. */
  function UnitRune(u: nat): (r: nat)
    requires u <= 0xFFFF
    ensures r <= 0x10FFFF
  {
    if IsHigh(u) || IsLow(u) then REPLACEMENT else u
  }

  function Unescape(b: byte): byte {
    if b == 0x62 then 0x08
    else if b == 0x66 then 0x0C
    else if b == 0x6E then 0x0A
    else if b == 0x72 then 0x0D
    else if b == 0x74 then 0x09
    else b
  }

  /** Decodes the inside of a quoted key. */
  function DecodeBody(b: seq<byte>): seq<byte>
    decreases |b|
  {
    if b == [] then []
    else if StartsPair(b) then
      EncodeRune(PairRune(Hex4(b[2..]), Hex4(b[8..]))) + DecodeBody(b[12..])
    else if IsUnicodeEscape(b) then
      EncodeRune(UnitRune(Hex4(b[2..]))) + DecodeBody(b[6..])
    else if b[0] == BACKSLASH then
      if |b| == 1 then [] else [Unescape(b[1])] + DecodeBody(b[2..])
    else
      EncodeRune(DecodeRune(b).value) + DecodeBody(b[DecodeRune(b).size..])
  }

  function DecodeName(quoted: seq<byte>): seq<byte> {
    if |quoted| < 2 then [] else DecodeBody(quoted[1..|quoted| - 1])
  }

  // ----- encoding a name

  function HexDigit(v: nat): (b: byte)
    requires v < 16
    ensures IsHex(b) && HexValue(b) == v
  {
    if v < 10 then ZERO + v else 0x61 + v - 10
  }

  function ShortEscapeFor(c: byte): Option<byte> {
    if c == QUOTE || c == BACKSLASH then Some(c)
    else if c == 0x08 then Some(0x62)
    else if c == 0x0C then Some(0x66)
    else if c == 0x0A then Some(0x6E)
    else if c == 0x0D then Some(0x72)
    else if c == 0x09 then Some(0x74)
    else None
  }

  /** How the encoder writes the first rune of a name: angle brackets and ampersand are escaped too. */
  function EncodePiece(n: seq<byte>): seq<byte>
    requires n != []
  {
    var c := n[0];
    var r := DecodeRune(n);
    if c < 0x80 then
      if ShortEscapeFor(c).Some? then [BACKSLASH, ShortEscapeFor(c).value]
      else if c < 0x20 || c == 0x3C || c == 0x3E || c == 0x26 then
        [BACKSLASH, SMALL_U, ZERO, ZERO, HexDigit(c / 16), HexDigit(c % 16)]
      else [c]
    else if Broken(r) then [BACKSLASH, SMALL_U, 0x66, 0x66, 0x66, 0x64]
    else if r.value == 0x2028 || r.value == 0x2029 then
      [BACKSLASH, SMALL_U, 0x32, 0x30, 0x32, HexDigit(r.value % 16)]
    else n[..r.size]
  }

  function EncodeBody(n: seq<byte>): seq<byte>
    decreases |n|
  {
    if n == [] then [] else EncodePiece(n) + EncodeBody(n[DecodeRune(n).size..])
  }

  function EncodeName(n: seq<byte>): seq<byte> { [QUOTE] + EncodeBody(n) + [QUOTE] }

  // ----- laws

  /** Decoding and encoding one well-formed sequence gives its bytes back. */
  lemma RuneRoundTrip(b: seq<byte>)
    requires b != []
    ensures !Broken(DecodeRune(b)) ==> EncodeRune(DecodeRune(b).value) == b[..DecodeRune(b).size]
    ensures Broken(DecodeRune(b)) ==> |EncodeRune(DecodeRune(b).value)| == 3
  {
    hide Sextets, DecodeRune, EncodeRune, TwoByte, ThreeByte, FourByte;
    if b[0] < 0x80 || !(TwoByte(b) || ThreeByte(b) || FourByte(b)) {
      ShortRune(b);
    } else if TwoByte(b) {
      TwoByteRune(b);
    } else if ThreeByte(b) {
      ThreeByteRune(b);
    } else {
      FourByteRune(b);
    }
  }

  lemma ShortRune(b: seq<byte>)
    requires b != [] && (b[0] < 0x80 || !(TwoByte(b) || ThreeByte(b) || FourByte(b)))
    ensures !Broken(DecodeRune(b)) ==> EncodeRune(DecodeRune(b).value) == b[..DecodeRune(b).size]
    ensures Broken(DecodeRune(b)) ==> |EncodeRune(DecodeRune(b).value)| == 3
  {
    hide TwoByte, ThreeByte, FourByte;
  }

  lemma TwoByteRune(b: seq<byte>)
    requires TwoByte(b)
    ensures !Broken(DecodeRune(b)) && EncodeRune(DecodeRune(b).value) == b[..DecodeRune(b).size]
  {
    hide Sextets;
    SextetDigits(0, 0, b[0] - 0xC0, b[1] - 0x80);
    assert DecodeRune(b) == Rune(Sextets(0, 0, b[0] - 0xC0, b[1] - 0x80), 2);
  }

  lemma ThreeByteRune(b: seq<byte>)
    requires ThreeByte(b)
    ensures !Broken(DecodeRune(b)) && EncodeRune(DecodeRune(b).value) == b[..DecodeRune(b).size]
  {
    hide Sextets;
    SextetDigits(0, b[0] - 0xE0, b[1] - 0x80, b[2] - 0x80);
    assert DecodeRune(b) == Rune(Sextets(0, b[0] - 0xE0, b[1] - 0x80, b[2] - 0x80), 3);
  }

  lemma FourByteRune(b: seq<byte>)
    requires FourByte(b)
    ensures !Broken(DecodeRune(b)) && EncodeRune(DecodeRune(b).value) == b[..DecodeRune(b).size]
  {
    hide Sextets;
    SextetDigits(b[0] - 0xF0, b[1] - 0x80, b[2] - 0x80, b[3] - 0x80);
    assert DecodeRune(b) == Rune(Sextets(b[0] - 0xF0, b[1] - 0x80, b[2] - 0x80, b[3] - 0x80), 4);
  }

  lemma SextetDigits(a: nat, b: nat, c: nat, d: nat)
    requires a < 5 && b < 64 && c < 64 && d < 64
    ensures var v := Sextets(a, b, c, d);
            v / 262144 == a && v / 4096 == a * 64 + b && v / 64 == a * 4096 + b * 64 + c && v % 64 == d
    ensures var v := Sextets(a, b, c, d); v / 4096 % 64 == b && v / 64 % 64 == c
    ensures var v := Sextets(a, b, c, d);
            (a == b == 0 ==> v < 4096) && (a == 0 ==> v < 262144)
  {
  }

  lemma {:induction false} RepairedLength(n: seq<byte>)
    ensures |Repaired(n)| >= |n|
    ensures |Repaired(n)| == |n| ==> IsUtf8(n)
    decreases |n|
  {
    if n != [] {
      RuneRoundTrip(n);
      RepairedLength(n[DecodeRune(n).size..]);
    }
  }

  lemma {:induction false} RepairedKeepsUtf8(n: seq<byte>)
    requires IsUtf8(n)
    ensures Repaired(n) == n
    decreases |n|
  {
    hide DecodeRune, EncodeRune;
    if n != [] {
      var k := DecodeRune(n).size;
      RuneRoundTrip(n);
      RepairedKeepsUtf8(n[k..]);
      assert n == n[..k] + n[k..];
    }
  }

  /** What a sequence decodes to does not depend on what follows it. */
  lemma RunePrefix(n: seq<byte>, rest: seq<byte>)
    requires n != [] && !Broken(DecodeRune(n))
    ensures DecodeRune(n[..DecodeRune(n).size] + rest) == DecodeRune(n)
  {
    var p := n[..DecodeRune(n).size] + rest;
    assert forall k | 0 <= k < DecodeRune(n).size :: p[k] == n[k];
  }

  /** How the encoder writes the first rune: a short escape, a numeric one, or as it is. */
  predicate TakesNumeric(n: seq<byte>)
    requires n != []
  {
    var c, r := n[0], DecodeRune(n);
    if c < 0x80 then ShortEscapeFor(c).None? && (c < 0x20 || c == 0x3C || c == 0x3E || c == 0x26)
    else Broken(r) || r.value == 0x2028 || r.value == 0x2029
  }

  /** One encoded piece decodes to the (repaired) rune, whatever follows. */
  lemma PieceDecodes(n: seq<byte>, rest: seq<byte>)
    requires n != []
    ensures DecodeBody(EncodePiece(n) + rest) == EncodeRune(DecodeRune(n).value) + DecodeBody(rest)
  {
    hide DecodeBody, EncodePiece, EncodeRune, DecodeRune, TakesNumeric, ShortEscapeFor;
    if TakesNumeric(n) {
      NumericDecodes(n, rest);
    } else if n[0] < 0x80 && ShortEscapeFor(n[0]).Some? {
      ShortDecodes(n, rest);
    } else {
      PlainDecodes(n, rest);
    }
  }

  lemma ShortDecodes(n: seq<byte>, rest: seq<byte>)
    requires n != [] && n[0] < 0x80 && ShortEscapeFor(n[0]).Some?
    ensures DecodeBody(EncodePiece(n) + rest) == EncodeRune(DecodeRune(n).value) + DecodeBody(rest)
  {
    var e := ShortEscapeFor(n[0]).value;
    assert e != SMALL_U && Unescape(e) == n[0] && EncodePiece(n) == [BACKSLASH, e];
    assert EncodeRune(DecodeRune(n).value) == [n[0]];
    hide EncodeRune, DecodeRune, EncodePiece, Unescape, ShortEscapeFor;
    var b := [BACKSLASH, e] + rest;
    assert b[2..] == rest;
  }

  /** A piece written as it is, of one byte or more. */
  lemma PlainDecodes(n: seq<byte>, rest: seq<byte>)
    requires n != [] && !TakesNumeric(n) && !(n[0] < 0x80 && ShortEscapeFor(n[0]).Some?)
    ensures DecodeBody(EncodePiece(n) + rest) == EncodeRune(DecodeRune(n).value) + DecodeBody(rest)
  {
    WrittenAsIs(n);
    hide EncodePiece, EncodeRune, TakesNumeric, ShortEscapeFor;
    RunePrefix(n, rest);
    hide DecodeRune;
    var k := DecodeRune(n).size;
    var b := n[..k] + rest;
    assert b[0] == n[0] && b[k..] == rest;
  }

  lemma WrittenAsIs(n: seq<byte>)
    requires n != [] && !TakesNumeric(n) && !(n[0] < 0x80 && ShortEscapeFor(n[0]).Some?)
    ensures !Broken(DecodeRune(n)) && EncodePiece(n) == n[..DecodeRune(n).size] && n[0] != BACKSLASH
  {
    if n[0] < 0x80 { assert DecodeRune(n) == Rune(n[0], 1) && n[..1] == [n[0]]; }
  }

  /** Four hexadecimal digits that are no surrogate. */
  lemma HexDecodes(h: seq<byte>, rest: seq<byte>)
    requires |h| == 4 && (forall k | 0 <= k < 4 :: IsHex(h[k])) && !IsHigh(Hex4(h)) && !IsLow(Hex4(h))
    ensures DecodeBody([BACKSLASH, SMALL_U] + h + rest) == EncodeRune(Hex4(h)) + DecodeBody(rest)
  {
    hide EncodeRune, HexValue, IsHex, DecodeRune;
    var b := [BACKSLASH, SMALL_U] + h + rest;
    assert b[6..] == rest && b[2] == h[0] && b[3] == h[1] && b[4] == h[2] && b[5] == h[3];
    assert Hex4(b[2..]) == Hex4(h);
  }

  lemma NumericDecodes(n: seq<byte>, rest: seq<byte>)
    requires n != [] && TakesNumeric(n)
    ensures DecodeBody(EncodePiece(n) + rest) == EncodeRune(DecodeRune(n).value) + DecodeBody(rest)
  {
    var h := NumericPiece(n);
    hide DecodeBody, EncodePiece, EncodeRune, DecodeRune, TakesNumeric, Hex4, IsHex;
    HexDecodes(h, rest);
  }

  lemma NumericPiece(n: seq<byte>) returns (h: seq<byte>)
    requires n != [] && TakesNumeric(n)
    ensures |h| == 4 && (forall k | 0 <= k < 4 :: IsHex(h[k])) && EncodePiece(n) == [BACKSLASH, SMALL_U] + h
    ensures Hex4(h) == DecodeRune(n).value && !IsHigh(Hex4(h)) && !IsLow(Hex4(h))
  {
    var c, v := n[0], DecodeRune(n).value;
    if c < 0x80 {
      assert DecodeRune(n) == Rune(c, 1);
      h := [ZERO, ZERO, HexDigit(c / 16), HexDigit(c % 16)];
      assert EncodePiece(n) == [BACKSLASH, SMALL_U] + h;
    } else {
      hide DecodeRune;
      h := if Broken(DecodeRune(n)) then [0x66, 0x66, 0x66, 0x64] else [0x32, 0x30, 0x32, HexDigit(v % 16)];
      assert EncodePiece(n) == [BACKSLASH, SMALL_U] + h;
    }
  }

  /** Decoding what the encoder wrote repairs the name and changes nothing else. */
  lemma {:induction false} DecodeEncode(n: seq<byte>)
    ensures DecodeBody(EncodeBody(n)) == Repaired(n)
    decreases |n|
  {
    if n != [] {
      var rest := n[DecodeRune(n).size..];
      DecodeEncode(rest);
      PieceDecodes(n, EncodeBody(rest));
    }
  }

  lemma NameRoundTrip(n: seq<byte>)
    ensures DecodeName(EncodeName(n)) == Repaired(n)
    ensures DecodeName(EncodeName(n)) == n <==> IsUtf8(n)
  {
    DecodeEncode(n);
    assert EncodeName(n)[1..|EncodeName(n)| - 1] == EncodeBody(n);
    RepairedLength(n);
    if IsUtf8(n) { RepairedKeepsUtf8(n); }
  }

  /** The first character of a string body: itself, a short escape or a numeric one. */
  ghost predicate StartsWith(b: seq<byte>, k: nat) {
    && 0 < k <= |b|
    && if b[0] != BACKSLASH then k == 1 && b[0] >= 0x20 && b[0] != QUOTE
       else if k == 2 then IsShortEscape(b[1])
       else k == 6 && b[1] == SMALL_U && IsHex(b[2]) && IsHex(b[3]) && IsHex(b[4]) && IsHex(b[5])
  }

  lemma BodyStarts(b: seq<byte>) returns (k: nat)
    requires IsStringBody(b) && b != []
    ensures StartsWith(b, k) && IsStringBody(b[k..])
  {
    hide IsShortEscape, IsHex;
    k := if b[0] != BACKSLASH then 1 else if |b| >= 2 && IsShortEscape(b[1]) && IsStringBody(b[2..]) then 2 else 6;
  }

  lemma BodyCons(b: seq<byte>, k: nat)
    requires StartsWith(b, k) && IsStringBody(b[k..])
    ensures IsStringBody(b)
  {
    hide IsShortEscape, IsHex;
  }

  lemma {:induction false} StringBodyConcat(a: seq<byte>, b: seq<byte>)
    requires IsStringBody(a) && IsStringBody(b)
    ensures IsStringBody(a + b)
    decreases |a|
  {
    hide IsStringBody;
    if a == [] {
      assert a + b == b;
    } else {
      var k := BodyStarts(a);
      StringBodyConcat(a[k..], b);
      assert (a + b)[k..] == a[k..] + b;
      BodyCons(a + b, k);
    }
  }

  lemma PlainBody(p: seq<byte>)
    requires forall k | 0 <= k < |p| :: p[k] >= 0x20 && p[k] != QUOTE && p[k] != BACKSLASH
    ensures IsStringBody(p)
  {
  }

  lemma PieceIsBody(n: seq<byte>)
    requires n != []
    ensures IsStringBody(EncodePiece(n))
  {
    var p := EncodePiece(n);
    if p[0] == BACKSLASH {
      assert p[2..] == [] || p[6..] == [];
    } else {
      PlainBody(p);
    }
  }

  lemma {:induction false} EncodedIsBody(n: seq<byte>)
    ensures IsStringBody(EncodeBody(n))
    decreases |n|
  {
    if n != [] {
      EncodedIsBody(n[DecodeRune(n).size..]);
      PieceIsBody(n);
      StringBodyConcat(EncodePiece(n), EncodeBody(n[DecodeRune(n).size..]));
    }
  }

  lemma {:induction false} PlainKeyRepaired(b: seq<byte>)
    requires BACKSLASH !in b
    ensures DecodeBody(b) == Repaired(b)
    decreases |b|
  {
    hide DecodeRune, EncodeRune;
    if b != [] { PlainKeyRepaired(b[DecodeRune(b).size..]); }
  }

  /** A key without escapes is its own name, if it is well-formed UTF-8. */
  lemma PlainKey(b: seq<byte>)
    requires BACKSLASH !in b
    ensures DecodeBody(b) == b <==> IsUtf8(b)
  {
    PlainKeyRepaired(b);
    RepairedLength(b);
    if IsUtf8(b) { RepairedKeepsUtf8(b); }
  }
}
