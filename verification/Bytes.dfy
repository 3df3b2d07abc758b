/** Bytes, the JSON byte classes, and "text t stands at offset i of s". */
module Bytes {
  type byte = b: int | 0 <= b < 256

  const QUOTE: byte := 0x22
  const BACKSLASH: byte := 0x5C
  const LBRACE: byte := 0x7B
  const RBRACE: byte := 0x7D
  const LBRACKET: byte := 0x5B
  const RBRACKET: byte := 0x5D
  const COLON: byte := 0x3A
  const COMMA: byte := 0x2C
  const MINUS: byte := 0x2D
  const PLUS: byte := 0x2B
  const DOT: byte := 0x2E
  const SMALL_E: byte := 0x65
  const BIG_E: byte := 0x45
  const ZERO: byte := 0x30
  const NINE: byte := 0x39
  const SMALL_U: byte := 0x75

  const TRUE_WORD: seq<byte> := [0x74, 0x72, 0x75, 0x65]
  const FALSE_WORD: seq<byte> := [0x66, 0x61, 0x6C, 0x73, 0x65]
  const NULL_WORD: seq<byte> := [0x6E, 0x75, 0x6C, 0x6C]

  /** Space, line feed, carriage return, tab (section 2 of RFC 8259). */
  predicate IsWs(b: byte) { b == 0x20 || b == 0x0A || b == 0x0D || b == 0x09 }

  predicate IsDigit(b: byte) { ZERO <= b <= NINE }

  predicate IsHex(b: byte) { IsDigit(b) || 0x61 <= b <= 0x66 || 0x41 <= b <= 0x46 }

  /** The byte after a backslash in a two-byte escape: quote, backslash, slash, b, f, n, r, t. */
  predicate IsShortEscape(b: byte) {
    b == QUOTE || b == BACKSLASH || b == 0x2F || b == 0x62 || b == 0x66 || b == 0x6E || b == 0x72 || b == 0x74
  }

  /** A byte that ends an unquoted scalar. */
  predicate IsDelimiter(b: byte) { b == COMMA || b == RBRACE || b == RBRACKET || IsWs(b) }

  ghost predicate AllWs(w: seq<byte>) { forall k | 0 <= k < |w| :: IsWs(w[k]) }

  ghost predicate AllDigits(w: seq<byte>) { forall k | 0 <= k < |w| :: IsDigit(w[k]) }

  /** The text t stands in s at offset i. */
  ghost predicate At(s: seq<byte>, i: nat, t: seq<byte>) {
    i + |t| <= |s| && forall k {:trigger t[k]} | 0 <= k < |t| :: s[i + k] == t[k]
  }

  lemma AtSlice(s: seq<byte>, i: nat, t: seq<byte>)
    ensures At(s, i, t) <==> i + |t| <= |s| && s[i..i + |t|] == t
  {
    if i + |t| <= |s| {
      assert forall k {:trigger t[k]} | 0 <= k < |t| :: s[i..i + |t|][k] == s[i + k];
    }
  }

  lemma AtSplit(s: seq<byte>, i: nat, a: seq<byte>, b: seq<byte>)
    ensures At(s, i, a + b) <==> At(s, i, a) && At(s, i + |a|, b)
  {
    var t := a + b;
    assert forall k | 0 <= k < |a| :: a[k] == t[k];
    assert forall k | 0 <= k < |b| :: b[k] == t[|a| + k];
  }

  lemma AtSplit3(s: seq<byte>, i: nat, a: seq<byte>, b: seq<byte>, c: seq<byte>)
    ensures At(s, i, a + b + c) <==> At(s, i, a) && At(s, i + |a|, b) && At(s, i + |a| + |b|, c)
  {
    AtSplit(s, i, a + b, c);
    AtSplit(s, i, a, b);
  }

  lemma AtEmpty(s: seq<byte>, i: nat)
    ensures At(s, i, []) <==> i <= |s|
  {
  }

  lemma AtByte(s: seq<byte>, i: nat, b: byte)
    ensures At(s, i, [b]) <==> i < |s| && s[i] == b
  {
    assert [b][0] == b;
  }
}
