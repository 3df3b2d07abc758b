/** What the keys of a JSON object say: the meaning of every character a string can hold,
    in terms of code points and their UTF-8 bytes, and that decoding a key gives just that. */
module KeyEscapes {
  import opened Bytes
  import opened JsonGrammar
  import opened KeyNames

  // ----- code points and their bytes (RFC 3629, section 3)

  predicate IsScalar(c: int) { 0 <= c < 0xD800 || 0xE000 <= c < 0x110000 }

  /** A byte that carries six more bits of a code point. */
  predicate Carries(b: byte) { 0x80 <= b < 0xC0 }

  function Above(b: byte, base: int): int { b as int - base }

  /** The bytes are those of the code point, and no shorter ones would do. */
  predicate Utf8Of(c: int, b: seq<byte>) {
    && IsScalar(c) && 1 <= |b| <= 4 && (forall k | 1 <= k < |b| :: Carries(b[k]))
    && match |b|
       case 1 => c < 0x80 && c == Above(b[0], 0)
       case 2 => 0x80 <= c < 0x800 && c == 64 * Above(b[0], 0xC0) + Above(b[1], 0x80)
       case 3 => 0x800 <= c < 0x10000 && c == 4096 * Above(b[0], 0xE0) + 64 * Above(b[1], 0x80) + Above(b[2], 0x80)
       case _ => 0x10000 <= c && c == 262144 * Above(b[0], 0xF0) + 4096 * Above(b[1], 0x80) + 64 * Above(b[2], 0x80) + Above(b[3], 0x80)
  }

  /** Encoding a code point gives its bytes. */
  lemma EncodesUtf8(c: nat)
    requires IsScalar(c)
    ensures Utf8Of(c, EncodeRune(c))
  {
    if c < 0x80 {
    } else if c < 0x800 {
      assert EncodeRune(c) == [0xC0 + c / 64, 0x80 + c % 64];
    } else if c < 0x10000 {
      Digits3(c);
      assert EncodeRune(c) == [0xE0 + c / 4096, 0x80 + c / 64 % 64, 0x80 + c % 64];
    } else {
      Digits4(c);
      assert EncodeRune(c) == [0xF0 + c / 262144, 0x80 + c / 4096 % 64, 0x80 + c / 64 % 64, 0x80 + c % 64];
    }
  }

  lemma Digits3(c: nat)
    ensures c == 4096 * (c / 4096) + 64 * (c / 64 % 64) + c % 64
  {
    assert c / 64 / 64 == c / 4096;
  }

  lemma Digits4(c: nat)
    ensures c == 262144 * (c / 262144) + 4096 * (c / 4096 % 64) + 64 * (c / 64 % 64) + c % 64
  {
    assert c / 4096 / 64 == c / 262144;
    Digits3(c);
  }

  /** Two code points never begin with the same bytes. */
  lemma Utf8Unique(c: int, b: seq<byte>, d: int, e: seq<byte>)
    requires Utf8Of(c, b) && Utf8Of(d, e) && |b| <= |e| && b == e[..|b|]
    ensures c == d && b == e
  {
    assert b[0] == e[0];
    if |b| == |e| {
      assert b == e;
    } else {
      LeadingByte(c, b);
      LeadingByte(d, e);
    }
  }

  lemma LeadingByte(c: int, b: seq<byte>)
    requires Utf8Of(c, b)
    ensures match |b| case 1 => b[0] < 0x80 case 2 => 0xC0 <= b[0] < 0xE0 case 3 => 0xE0 <= b[0] < 0xF0 case _ => 0xF0 <= b[0] < 0xF5
  {
  }

  /** The first sequence of some bytes is read as its code point, whatever follows. */
  lemma DecodesUtf8(c: int, b: seq<byte>, rest: seq<byte>)
    requires Utf8Of(c, b)
    ensures DecodeRune(b + rest) == Rune(c, |b|)
  {
    var s := b + rest;
    assert forall k | 0 <= k < |b| :: s[k] == b[k];
    LeadingByte(c, b);
    match |b|
    case 1 =>
    case 2 => assert TwoByte(s);
    case 3 => assert ThreeByte(s);
    case 4 => assert FourByte(s);
  }

  /** Some code point's bytes stand at the front. */
  ghost predicate StartsUtf8(s: seq<byte>) {
    exists k | 0 < k <= |s| :: exists c :: Utf8Of(c, s[..k])
  }

  /** Reading gives the replacement rune for one byte exactly where no sequence starts. */
  lemma BrokenExact(s: seq<byte>)
    requires s != []
    ensures Broken(DecodeRune(s)) <==> !StartsUtf8(s)
    ensures !Broken(DecodeRune(s)) ==> Utf8Of(DecodeRune(s).value, s[..DecodeRune(s).size])
  {
    if StartsUtf8(s) {
      var k :| 0 < k <= |s| && exists c :: Utf8Of(c, s[..k]);
      var c :| Utf8Of(c, s[..k]);
      DecodesUtf8(c, s[..k], s[k..]);
      assert s[..k] + s[k..] == s;
    }
    if !Broken(DecodeRune(s)) {
      ReadIsUtf8(s);
    }
  }

  lemma ReadIsUtf8(s: seq<byte>)
    requires s != [] && !Broken(DecodeRune(s))
    ensures Utf8Of(DecodeRune(s).value, s[..DecodeRune(s).size])
  {
  }

  // ----- numeric escapes

  /** An ASCII letter of a hexadecimal digit, in either case. */
  predicate Spells(h: byte, v: int) {
    0 <= v < 16 && h as int == if v < 10 then 48 + v else if h < 97 then 65 + v - 10 else 97 + v - 10
  }

  /** Four hexadecimal digits, in any mixture of cases. */
  predicate SpellsUnit(h: seq<byte>, u: int) {
    |h| == 4 && 0 <= u < 0x10000 && Spells(h[0], u / 4096) && Spells(h[1], u / 256 % 16) && Spells(h[2], u / 16 % 16) && Spells(h[3], u % 16)
  }

  predicate IsHighHalf(u: int) { 0xD800 <= u < 0xDC00 }
  predicate IsLowHalf(u: int) { 0xDC00 <= u < 0xE000 }

  /** The two UTF-16 units of a code point above the basic plane (RFC 2781, section 2.1). */
  predicate Halves(c: int, high: int, low: int) {
    IsHighHalf(high) && IsLowHalf(low) && c == 0x10000 + 0x400 * (high - 0xD800) + (low - 0xDC00)
  }

  function Numeric(h: seq<byte>): seq<byte> { [BACKSLASH, SMALL_U] + h }

  lemma DigitValue(h: byte, v: int)
    requires Spells(h, v)
    ensures IsHex(h) && HexValue(h) == v
  {
  }

  lemma UnitValue(h: seq<byte>, u: int)
    requires SpellsUnit(h, u)
    ensures |h| == 4 && (forall k | 0 <= k < 4 :: IsHex(h[k])) && Hex4(h) == u
  {
    DigitValue(h[0], u / 4096);
    DigitValue(h[1], u / 256 % 16);
    DigitValue(h[2], u / 16 % 16);
    DigitValue(h[3], u % 16);
    HexDigits(u);
  }

  lemma HexDigits(u: int)
    requires 0 <= u < 0x10000
    ensures u == u / 4096 * 4096 + u / 256 % 16 * 256 + u / 16 % 16 * 16 + u % 16
  {
    assert u / 16 / 16 == u / 256 && u / 256 / 16 == u / 4096;
  }

  /** Four hexadecimal digits spell exactly one unit. */
  lemma UnitExists(h: seq<byte>) returns (u: int)
    requires |h| == 4 && forall k | 0 <= k < 4 :: IsHex(h[k])
    ensures SpellsUnit(h, u)
  {
    var a, b, c, d := HexValue(h[0]), HexValue(h[1]), HexValue(h[2]), HexValue(h[3]);
    u := a * 4096 + b * 256 + c * 16 + d;
    UnitParts(a, b, c, d);
    forall k | 0 <= k < 4 ensures Spells(h[k], HexValue(h[k])) { SpellsValue(h[k]); }
    hide IsHex, HexValue, Spells;
  }

  lemma UnitParts(a: nat, b: nat, c: nat, d: nat)
    requires a < 16 && b < 16 && c < 16 && d < 16
    ensures var u := a * 4096 + b * 256 + c * 16 + d;
            u < 0x10000 && u / 4096 == a && u / 256 % 16 == b && u / 16 % 16 == c && u % 16 == d
  {
    var u := a * 4096 + b * 256 + c * 16 + d;
    assert u / 16 == a * 256 + b * 16 + c;
    assert u / 256 == a * 16 + b;
  }

  lemma SpellsValue(h: byte)
    requires IsHex(h)
    ensures Spells(h, HexValue(h))
  {
  }

  // ----- the characters of a string

  /** A character as it can stand in a string: a code point's own bytes, a byte of no
      sequence, a short escape, a code point of the basic plane or above it escaped by its
      number, or half of a pair that lacks the other. */
  datatype Char =
    | Own(c: int, bytes: seq<byte>) | Stray(b: byte) | Short(letter: byte, meaning: byte)
    | Unit(h: seq<byte>, u: int) | Pair(h: seq<byte>, l: seq<byte>, c: int) | Lone(h: seq<byte>, u: int)

  function Spelling(ch: Char): seq<byte> {
    match ch
    case Own(_, bytes) => bytes
    case Stray(b) => [b]
    case Short(letter, _) => [BACKSLASH, letter]
    case Unit(h, _) => Numeric(h)
    case Pair(h, l, _) => Numeric(h) + Numeric(l)
    case Lone(h, _) => Numeric(h)
  }

  /** Some bytes begin with the escape of the lower half of a pair. */
  ghost predicate StartsLow(s: seq<byte>) {
    |s| >= 6 && s[..2] == [BACKSLASH, SMALL_U] && exists u :: IsLowHalf(u) && SpellsUnit(s[2..6], u)
  }

  /** The two-byte escapes (section 7 of RFC 8259): quotation mark, reverse solidus, solidus,
      backspace, form feed, line feed, carriage return, tab. */
  const SHORTS: seq<(char, int)> := [('"', 0x22), ('\\', 0x5C), ('/', 0x2F), ('b', 0x08), ('f', 0x0C), ('n', 0x0A), ('r', 0x0D), ('t', 0x09)]

  ghost predicate WellFormed(ch: Char, next: seq<byte>) {
    match ch
    case Own(c, bytes) => Utf8Of(c, bytes) && bytes[0] != BACKSLASH
    case Stray(b) => b >= 0x80 && !StartsUtf8([b] + next)
    case Short(letter, meaning) => (letter as char, meaning as int) in SHORTS
    case Unit(h, u) => SpellsUnit(h, u) && IsScalar(u)
    case Pair(h, l, c) => exists high, low :: Halves(c, high, low) && SpellsUnit(h, high) && SpellsUnit(l, low)
    case Lone(h, u) => SpellsUnit(h, u) && (IsLowHalf(u) || (IsHighHalf(u) && !StartsLow(next)))
  }

  /** What the character says: the UTF-8 bytes of its code point, U+FFFD where there is none. */
  ghost predicate Says(ch: Char, bytes: seq<byte>) {
    match ch
    case Own(_, own) => bytes == own
    case Stray(_) => bytes == [0xEF, 0xBF, 0xBD]
    case Short(_, meaning) => bytes == [meaning]
    case Unit(_, u) => Utf8Of(u, bytes)
    case Pair(_, _, c) => Utf8Of(c, bytes)
    case Lone(_, _) => bytes == [0xEF, 0xBF, 0xBD]
  }

  lemma NumericStarts(h: seq<byte>, rest: seq<byte>)
    requires |h| == 4 && forall k | 0 <= k < 4 :: IsHex(h[k])
    ensures var b := Numeric(h) + rest;
            IsUnicodeEscape(b) && b[6..] == rest && Hex4(b[2..]) == Hex4(h)
  {
    hide HexValue, IsHex;
    var b := Numeric(h) + rest;
    assert b[2..] == h + rest;
    assert b[2] == h[0] && b[3] == h[1] && b[4] == h[2] && b[5] == h[3];
  }

  lemma UnitDecodes(h: seq<byte>, u: int, rest: seq<byte>)
    requires SpellsUnit(h, u) && IsScalar(u)
    ensures DecodeBody(Numeric(h) + rest) == EncodeRune(u) + DecodeBody(rest)
  {
    UnitValue(h, u);
    NumericStarts(h, rest);
    assert !StartsPair(Numeric(h) + rest) && UnitRune(u) == u;
    hide EncodeRune, DecodeRune, Hex4, IsUnicodeEscape, SpellsUnit, StartsPair, UnitRune, PairRune, Numeric;
  }

  lemma PairDecodes(h: seq<byte>, l: seq<byte>, c: int, high: int, low: int, rest: seq<byte>)
    requires Halves(c, high, low) && SpellsUnit(h, high) && SpellsUnit(l, low)
    ensures 0 <= c <= 0x10FFFF && DecodeBody(Numeric(h) + Numeric(l) + rest) == EncodeRune(c) + DecodeBody(rest)
  {
    UnitValue(h, high);
    UnitValue(l, low);
    var b := Numeric(h) + (Numeric(l) + rest);
    assert b == Numeric(h) + Numeric(l) + rest;
    NumericStarts(h, Numeric(l) + rest);
    NumericStarts(l, rest);
    Beyond(b);
    assert StartsPair(b) && PairRune(high, low) == c;
    hide EncodeRune, DecodeRune, Hex4, IsUnicodeEscape, SpellsUnit, StartsPair, UnitRune, PairRune, Numeric;
  }

  lemma Beyond(b: seq<byte>)
    requires |b| >= 12
    ensures b[12..] == b[6..][6..] && b[8..] == b[6..][2..]
  {
  }

  lemma LoneDecodes(h: seq<byte>, u: int, rest: seq<byte>)
    requires SpellsUnit(h, u) && (IsLowHalf(u) || (IsHighHalf(u) && !StartsLow(rest)))
    ensures DecodeBody(Numeric(h) + rest) == EncodeRune(0xFFFD) + DecodeBody(rest)
  {
    UnitValue(h, u);
    NumericStarts(h, rest);
    var b := Numeric(h) + rest;
    if StartsPair(b) {
      Beyond(b);
      LowStarts(rest);
    }
    assert UnitRune(u) == 0xFFFD;
    hide EncodeRune, DecodeRune, Hex4, IsUnicodeEscape, SpellsUnit, StartsPair, UnitRune, PairRune, Numeric, StartsLow;
  }

  lemma LowStarts(s: seq<byte>)
    requires IsUnicodeEscape(s) && IsLow(Hex4(s[2..]))
    ensures StartsLow(s)
  {
    var h := s[2..6];
    assert forall k | 0 <= k < 4 :: h[k] == s[2 + k];
    var u := UnitExists(h);
    UnitValue(h, u);
    assert Hex4(s[2..]) == Hex4(h);
    assert s[..2] == [BACKSLASH, SMALL_U];
  }

  lemma ShortDecodes(letter: byte, meaning: byte, rest: seq<byte>)
    requires (letter as char, meaning as int) in SHORTS
    ensures DecodeBody([BACKSLASH, letter] + rest) == [meaning] + DecodeBody(rest)
  {
    ShortMeaning(letter, meaning);
    var b := [BACKSLASH, letter] + rest;
    assert b[2..] == rest;
    hide Unescape;
  }

  lemma ShortMeaning(letter: byte, meaning: byte)
    requires (letter as char, meaning as int) in SHORTS
    ensures Unescape(letter) == meaning && letter != SMALL_U && IsShortEscape(letter)
  {
    var k :| 0 <= k < |SHORTS| && SHORTS[k] == (letter as char, meaning as int);
  }

  lemma ReplacementBytes()
    ensures EncodeRune(0xFFFD) == [0xEF, 0xBF, 0xBD]
  {
  }

  /** Decoding gives exactly what each character says, whatever follows it. */
  lemma CharDecodes(ch: Char, rest: seq<byte>) returns (bytes: seq<byte>)
    requires WellFormed(ch, rest)
    ensures Says(ch, bytes) && DecodeBody(Spelling(ch) + rest) == bytes + DecodeBody(rest)
  {
    ReplacementBytes();
    match ch
    case Own(c, own) =>
      bytes := own;
      OwnDecodes(c, own, rest);
    case Stray(b) =>
      bytes := [0xEF, 0xBF, 0xBD];
      StrayDecodes(b, rest);
    case Short(letter, meaning) =>
      bytes := [meaning];
      ShortDecodes(letter, meaning, rest);
    case Unit(h, u) =>
      bytes := EncodeRune(u);
      EncodesUtf8(u);
      UnitDecodes(h, u, rest);
    case Pair(h, l, c) =>
      var high, low :| Halves(c, high, low) && SpellsUnit(h, high) && SpellsUnit(l, low);
      PairDecodes(h, l, c, high, low, rest);
      bytes := EncodeRune(c);
      EncodesUtf8(c);
    case Lone(h, u) =>
      bytes := [0xEF, 0xBF, 0xBD];
      LoneDecodes(h, u, rest);
  }

  lemma OwnDecodes(c: int, own: seq<byte>, rest: seq<byte>)
    requires Utf8Of(c, own) && own[0] != BACKSLASH
    ensures DecodeBody(own + rest) == own + DecodeBody(rest)
  {
    DecodesUtf8(c, own, rest);
    var s := own + rest;
    assert s[0] == own[0] && s[|own|..] == rest && s[..|own|] == own;
    RuneRoundTrip(s);
    hide EncodeRune, DecodeRune, Utf8Of;
  }

  lemma StrayDecodes(b: byte, rest: seq<byte>)
    requires b >= 0x80 && !StartsUtf8([b] + rest)
    ensures DecodeBody([b] + rest) == EncodeRune(0xFFFD) + DecodeBody(rest)
  {
    var s := [b] + rest;
    BrokenExact(s);
    assert s[1..] == rest && s[0] == b;
    hide EncodeRune, DecodeRune, StartsUtf8;
  }

  // ----- every string is made of such characters

  /** The first character of any string body, and what is left of it. */
  lemma FirstChar(body: seq<byte>) returns (ch: Char, rest: seq<byte>)
    requires IsStringBody(body) && body != []
    ensures body == Spelling(ch) + rest && WellFormed(ch, rest) && |rest| < |body| && IsStringBody(rest)
  {
    var k := BodyStarts(body);
    if body[0] != BACKSLASH {
      ch, rest := PlainChar(body);
    } else if k == 2 {
      rest := body[2..];
      var m := ShortFor(body[1]);
      ch := Short(body[1], m);
      assert body == [BACKSLASH, body[1]] + rest;
    } else {
      ch, rest := NumericChar(body);
    }
  }

  lemma PlainChar(body: seq<byte>) returns (ch: Char, rest: seq<byte>)
    requires IsStringBody(body) && body != [] && body[0] != BACKSLASH
    ensures body == Spelling(ch) + rest && WellFormed(ch, rest) && |rest| < |body| && IsStringBody(rest)
  {
    BrokenExact(body);
    if Broken(DecodeRune(body)) {
      ch, rest := Stray(body[0]), body[1..];
      assert [body[0]] + rest == body;
    } else {
      var n := DecodeRune(body).size;
      ch, rest := Own(DecodeRune(body).value, body[..n]), body[n..];
      assert body[..n] + rest == body;
      if n > 1 {
        LeadingByte(DecodeRune(body).value, body[..n]);
        assert forall k | 0 <= k < n :: body[k] == body[..n][k];
        DropHigh(body, n);
      }
    }
  }

  /** Bytes above ASCII stand for themselves in a string. */
  lemma {:induction false} DropHigh(body: seq<byte>, n: nat)
    requires IsStringBody(body) && n <= |body| && forall k | 0 <= k < n :: body[k] >= 0x80
    ensures IsStringBody(body[n..])
    decreases n
  {
    if n > 0 {
      assert body[1..][n - 1..] == body[n..];
      DropHigh(body[1..], n - 1);
    } else {
      assert body[0..] == body;
    }
  }

  lemma ShortFor(letter: byte) returns (m: byte)
    requires IsShortEscape(letter)
    ensures (letter as char, m as int) in SHORTS
  {
    m := Unescape(letter);
    var k := if letter == 0x22 then 0 else if letter == 0x5C then 1 else if letter == 0x2F then 2 else if letter == 0x62 then 3
             else if letter == 0x66 then 4 else if letter == 0x6E then 5 else if letter == 0x72 then 6 else 7;
    assert SHORTS[k] == (letter as char, m as int);
  }

  lemma NumericChar(body: seq<byte>) returns (ch: Char, rest: seq<byte>)
    requires |body| >= 6 && body[0] == BACKSLASH && body[1] == SMALL_U && forall k | 2 <= k < 6 :: IsHex(body[k])
    requires IsStringBody(body[6..])
    ensures body == Spelling(ch) + rest && WellFormed(ch, rest) && |rest| < |body| && IsStringBody(rest)
  {
    hide IsHex, SpellsUnit, IsStringBody;
    var h := body[2..6];
    assert forall k | 0 <= k < 4 :: h[k] == body[2 + k];
    rest := body[6..];
    assert body == Numeric(h) + rest;
    var u := UnitExists(h);
    UnitRange(h, u);
    if IsHighHalf(u) && StartsLow(rest) {
      var low :| IsLowHalf(low) && SpellsUnit(rest[2..6], low);
      var l := rest[2..6];
      assert rest == Numeric(l) + rest[6..];
      ch := Pair(h, l, 0x10000 + 0x400 * (u - 0xD800) + (low - 0xDC00));
      assert Halves(ch.c, u, low);
      assert Numeric(h) + (Numeric(l) + rest[6..]) == Numeric(h) + Numeric(l) + rest[6..];
      EscapeDropped(rest);
      rest := rest[6..];
    } else if IsHighHalf(u) || IsLowHalf(u) {
      ch := Lone(h, u);
    } else {
      ch := Unit(h, u);
    }
  }

  lemma EscapeDropped(s: seq<byte>)
    requires IsStringBody(s) && |s| >= 6 && s[..2] == [BACKSLASH, SMALL_U]
    ensures IsStringBody(s[6..])
  {
    assert s[0] == s[..2][0] && s[1] == s[..2][1];
  }

  lemma UnitRange(h: seq<byte>, u: int)
    requires SpellsUnit(h, u)
    ensures 0 <= u < 0x10000
  {
  }

  // ----- whole keys

  function Spelled(chars: seq<Char>): seq<byte> {
    if chars == [] then [] else Spelling(chars[0]) + Spelled(chars[1..])
  }

  ghost predicate AllWellFormed(chars: seq<Char>) {
    chars == [] || (WellFormed(chars[0], Spelled(chars[1..])) && AllWellFormed(chars[1..]))
  }

  function Joined(texts: seq<seq<byte>>): seq<byte> {
    if texts == [] then [] else texts[0] + Joined(texts[1..])
  }

  ghost predicate AllSay(chars: seq<Char>, texts: seq<seq<byte>>) {
    |chars| == |texts| && forall i | 0 <= i < |chars| :: Says(chars[i], texts[i])
  }

  lemma {:induction false} CharsDecode(chars: seq<Char>) returns (texts: seq<seq<byte>>)
    requires AllWellFormed(chars)
    ensures AllSay(chars, texts) && DecodeBody(Spelled(chars)) == Joined(texts)
    decreases |chars|
  {
    hide WellFormed, Says, Spelling;
    if chars == [] {
      texts := [];
    } else {
      var tail := CharsDecode(chars[1..]);
      var first := CharDecodes(chars[0], Spelled(chars[1..]));
      texts := [first] + tail;
      assert texts[1..] == tail;
    }
  }

  lemma {:induction false} CharsOf(body: seq<byte>) returns (chars: seq<Char>)
    requires IsStringBody(body)
    ensures AllWellFormed(chars) && Spelled(chars) == body
    decreases |body|
  {
    if body == [] {
      chars := [];
    } else {
      var ch, rest := FirstChar(body);
      var tail := CharsOf(rest);
      chars := [ch] + tail;
      assert chars[1..] == tail;
    }
  }

  /** Every key a JSON string can spell is decoded, character by character, to what it says. */
  lemma KeyMeaning(body: seq<byte>) returns (chars: seq<Char>, texts: seq<seq<byte>>)
    requires IsStringBody(body)
    ensures AllWellFormed(chars) && Spelled(chars) == body && AllSay(chars, texts)
    ensures DecodeName([QUOTE] + body + [QUOTE]) == Joined(texts)
  {
    chars := CharsOf(body);
    texts := CharsDecode(chars);
    assert ([QUOTE] + body + [QUOTE])[1..|body| + 1] == body;
  }

  // ----- how names are written

  /** The escapes the encoder writes for single characters. */
  const WRITTEN_SHORT: seq<(int, char)> := [(0x22, '"'), (0x5C, '\\'), (0x08, 'b'), (0x0C, 'f'), (0x0A, 'n'), (0x0D, 'r'), (0x09, 't')]

  /** Other control characters, the characters that mean something in HTML, and the two line
      separators are written by their numbers. */
  predicate ByNumber(c: int) {
    (c < 0x20 && !(0x08 <= c <= 0x0A) && c != 0x0C && c != 0x0D) || (c as int) in {'<' as int, '>' as int, '&' as int, 0x2028, 0x2029}
  }

  predicate LowerSpells(h: byte, v: int) { Spells(h, v) && !(65 <= h < 91) }

  predicate LowerUnit(h: seq<byte>, u: int) {
    SpellsUnit(h, u) && LowerSpells(h[0], u / 4096) && LowerSpells(h[1], u / 256 % 16) && LowerSpells(h[2], u / 16 % 16) && LowerSpells(h[3], u % 16)
  }

  /** How each character of a name is written: a code point by its escape, by its number in
      small letters, or as it is; a byte of no sequence as U+FFFD by its number. */
  lemma CharWritten(c: int, b: seq<byte>, rest: seq<byte>)
    requires Utf8Of(c, b)
    ensures var w := EncodePiece(b + rest);
            && (forall k | 0 <= k < |WRITTEN_SHORT| && WRITTEN_SHORT[k].0 == c :: w == [BACKSLASH, WRITTEN_SHORT[k].1 as int])
            && (ByNumber(c) ==> |w| == 6 && w == Numeric(w[2..]) && LowerUnit(w[2..], c))
            && (!ByNumber(c) && (forall k | 0 <= k < |WRITTEN_SHORT| :: WRITTEN_SHORT[k].0 != c) ==> w == b)
  {
    var n := b + rest;
    DecodesUtf8(c, b, rest);
    assert n[..|b|] == b && n[0] == b[0];
    LeadingByte(c, b);
    hide DecodeRune;
    if c < 0x80 {
      AsciiWritten(n, c);
    } else {
      assert c >= 0x80 && n[0] >= 0x80;
      WideWritten(n, c, |b|);
    }
  }

  lemma AsciiWritten(n: seq<byte>, c: int)
    requires n != [] && c == n[0] as int && c < 0x80
    ensures var w := EncodePiece(n);
            && (forall k | 0 <= k < |WRITTEN_SHORT| && WRITTEN_SHORT[k].0 == c :: w == [BACKSLASH, WRITTEN_SHORT[k].1 as int])
            && (ByNumber(c) ==> |w| == 6 && w == Numeric(w[2..]) && LowerUnit(w[2..], c))
            && (!ByNumber(c) && (forall k | 0 <= k < |WRITTEN_SHORT| :: WRITTEN_SHORT[k].0 != c) ==> w == [n[0]])
  {
    assert WRITTEN_SHORT[0].0 == 0x22 && WRITTEN_SHORT[1].0 == 0x5C && WRITTEN_SHORT[2].0 == 0x08 && WRITTEN_SHORT[3].0 == 0x0C;
    assert WRITTEN_SHORT[4].0 == 0x0A && WRITTEN_SHORT[5].0 == 0x0D && WRITTEN_SHORT[6].0 == 0x09;
    hide DecodeRune;
    if ByNumber(c) { NumberWritten(n, c); }
  }

  lemma NumberWritten(n: seq<byte>, c: int)
    requires n != [] && c == n[0] as int && c < 0x80 && ByNumber(c)
    ensures var w := EncodePiece(n); |w| == 6 && w == Numeric(w[2..]) && LowerUnit(w[2..], c)
  {
    hide DecodeRune;
    var w := EncodePiece(n);
    assert w == [BACKSLASH, SMALL_U, ZERO, ZERO, HexDigit(n[0] / 16), HexDigit(n[0] % 16)];
    assert w[2..] == [ZERO, ZERO, HexDigit(n[0] / 16), HexDigit(n[0] % 16)];
    assert c / 16 % 16 == c / 16 && c / 256 == 0 && c / 4096 == 0;
  }

  lemma WideWritten(n: seq<byte>, c: int, size: nat)
    requires n != [] && n[0] >= 0x80 && c >= 0x80 && DecodeRune(n) == Rune(c, size) && size > 1
    ensures var w := EncodePiece(n);
            && (ByNumber(c) ==> |w| == 6 && w == Numeric(w[2..]) && LowerUnit(w[2..], c))
            && (!ByNumber(c) ==> w == n[..size])
            && forall k | 0 <= k < |WRITTEN_SHORT| :: WRITTEN_SHORT[k].0 != c
  {
    hide DecodeRune;
    assert forall k | 0 <= k < |WRITTEN_SHORT| :: WRITTEN_SHORT[k].0 < 0x80;
    if ByNumber(c) {
      var w := EncodePiece(n);
      assert w == [BACKSLASH, SMALL_U, 0x32, 0x30, 0x32, HexDigit(c % 16)];
      assert w[2..] == [0x32, 0x30, 0x32, HexDigit(c % 16)];
    }
  }

  lemma StrayWritten(b: byte, rest: seq<byte>)
    requires !StartsUtf8([b] + rest)
    ensures EncodePiece([b] + rest) == Numeric([0x66, 0x66, 0x66, 0x64])
  {
    var n := [b] + rest;
    BrokenExact(n);
    hide DecodeRune, StartsUtf8;
  }
}
