/** The bytes of JSON as the characters they are, and the names in an index as the text of
    their keys. */
module JsonAlphabet {
  import opened Bytes
  import opened JsonGrammar
  import opened JsonIndex
  import opened JsonSpans
  import opened KeyEscapes

  /** A byte is one of these ASCII characters. */
  predicate OneOf(b: byte, cs: string) { b as char in cs }

  /** The classes of bytes that the grammar of RFC 8259 speaks of. */
  lemma Classes(b: byte)
    ensures IsWs(b) <==> OneOf(b, " \t\n\r")
    ensures IsDigit(b) <==> OneOf(b, "0123456789")
    ensures IsHex(b) <==> OneOf(b, "0123456789") || OneOf(b, "abcdef") || OneOf(b, "ABCDEF")
    ensures IsShortEscape(b) <==> OneOf(b, "\"\\/bfnrt")
    ensures IsDelimiter(b) <==> OneOf(b, ",]} \t\n\r")
  {
    DigitAmong(b);
    LetterAmong(b);
  }

  lemma DigitAmong(b: byte)
    ensures IsDigit(b) <==> OneOf(b, "0123456789")
  {
    var cs := "0123456789";
    if IsDigit(b) { assert cs[b - ZERO] == b as char; }
  }

  lemma LetterAmong(b: byte)
    ensures 0x61 <= b <= 0x66 <==> OneOf(b, "abcdef")
    ensures 0x41 <= b <= 0x46 <==> OneOf(b, "ABCDEF")
  {
    if 0x61 <= b <= 0x66 { assert "abcdef"[b - 0x61] == b as char; }
    if 0x41 <= b <= 0x46 { assert "ABCDEF"[b - 0x41] == b as char; }
  }

  ghost predicate Ascii(t: seq<byte>, cs: string) { |t| == |cs| && forall i | 0 <= i < |t| :: t[i] as char == cs[i] }

  lemma Words()
    ensures Ascii(TRUE_WORD, "true") && Ascii(FALSE_WORD, "false") && Ascii(NULL_WORD, "null")
    ensures Ascii([QUOTE, BACKSLASH, COLON, COMMA, MINUS, PLUS, DOT], "\"\\:,-+.")
    ensures Ascii([LBRACE, RBRACE, LBRACKET, RBRACKET, SMALL_E, BIG_E, SMALL_U], "{}[]eEu")
    ensures Ascii([Open(Object), Close(Object), Open(Array), Close(Array)], "{}[]")
  {
  }

  /** The name of an indexed field is what the characters of its key say. */
  lemma IndexedName(data: seq<byte>, span: Span, k: nat) returns (chars: seq<Char>, texts: seq<seq<byte>>)
    requires IndexFields(data, span).Some? && k < |IndexFields(data, span).value|
    ensures var f := IndexFields(data, span).value[k];
            && AllWellFormed(chars) && AllSay(chars, texts)
            && Cut(data, f.key) == [QUOTE] + Spelled(chars) + [QUOTE] && f.name == KeyEscapes.Joined(texts)
  {
    hide IndexEntries, AllWellFormed, AllSay, HoldsValue, JsonSpans.Joined;
    var es := IndexEntries(Object, data, span).value;
    SpanStructure(Object, data, span);
    var body := KeyOf(data, span, es, k);
    chars, texts := KeyMeaning(body);
  }

  lemma KeyOf(data: seq<byte>, span: Span, es: seq<Entry>, k: nat) returns (body: seq<byte>)
    requires IndexShape(Object, data, span, es) && k < |es|
    ensures IsStringBody(body) && Cut(data, es[k].key) == [QUOTE] + body + [QUOTE]
  {
    hide IsStringBody, JsonSpans.Joined, HoldsValue;
    var open, close :|
      && WsRun(data, span.start, open) && open < close < |data| && data[open] == Open(Object)
      && data[close] == Close(Object) && WsRun(data, close + 1, span.end)
      && if es == [] then WsRun(data, open + 1, close)
         else ListShape(Object, data, es, MAX_DEPTH - 1, open + 1, close);
    assert EntryShape(Object, data, es[k], MAX_DEPTH - 1);
    body :| HoldsKey(data, es[k].key, body);
    QuotedAt(data, es[k].key, body);
  }

  lemma QuotedAt(data: seq<byte>, span: Span, body: seq<byte>)
    requires HoldsKey(data, span, body)
    ensures Cut(data, span) == [QUOTE] + body + [QUOTE]
  {
    hide At, IsStringBody;
    QuotedLayout(body, data, span.start);
    AtSlice(data, span.start, Quoted(body));
  }
}
