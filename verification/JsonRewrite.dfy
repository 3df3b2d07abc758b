/** The object rewriter: splices an edited object out of the spans of an index, and what
    indexing the result gives back. */
module JsonRewrite {
  import opened Options
  import opened Bytes
  import opened JsonGrammar
  import opened JsonIndex
  import opened KeyNames
  import opened StdJson

  type Name = seq<byte>

  datatype Edit = Edit(delete: bool, replacement: Option<seq<byte>>)

  datatype Addition = Addition(name: Name, value: seq<byte>)

  /** A piece of the output: a section of the source, or bytes held in memory. */
  datatype Part = Section(off: int, length: int) | Literal(bytes: seq<byte>)

  // ----- what is written

  function PartText(data: seq<byte>, p: Part): seq<byte> {
    match p
    case Section(off, length) => Cut(data, Span(off, off + length))
    case Literal(bytes) => bytes
  }

  function Content(data: seq<byte>, parts: seq<Part>): seq<byte> {
    if parts == [] then [] else Content(data, parts[..|parts| - 1]) + PartText(data, parts[|parts| - 1])
  }

  predicate Deleted(f: Field, edits: map<Name, Edit>) { f.name in edits && edits[f.name].delete }

  function Replacement(f: Field, edits: map<Name, Edit>): Option<seq<byte>> {
    if f.name in edits then edits[f.name].replacement else None
  }

  function MemberText(data: seq<byte>, f: Field, edits: map<Name, Edit>): seq<byte> {
    match Replacement(f, edits)
    case None => Cut(data, Span(f.key.start, f.value.end))
    case Some(b) => Cut(data, f.key) + [COLON] + b
  }

  function KeptTexts(data: seq<byte>, fs: seq<Field>, edits: map<Name, Edit>): seq<seq<byte>> {
    if fs == [] then []
    else
      var f := fs[|fs| - 1];
      KeptTexts(data, fs[..|fs| - 1], edits) + (if Deleted(f, edits) then [] else [MemberText(data, f, edits)])
  }

  function AddedTexts(adds: seq<Addition>): seq<seq<byte>> {
    if adds == [] then []
    else
      var a := adds[|adds| - 1];
      AddedTexts(adds[..|adds| - 1]) + [EncodeName(a.name) + [COLON] + a.value]
  }

  function CommaJoined(texts: seq<seq<byte>>): seq<byte> {
    if texts == [] then []
    else if |texts| == 1 then texts[0]
    else CommaJoined(texts[..|texts| - 1]) + [COMMA] + texts[|texts| - 1]
  }

  function Rewritten(data: seq<byte>, fs: seq<Field>, edits: map<Name, Edit>, adds: seq<Addition>): seq<byte> {
    [LBRACE] + CommaJoined(KeptTexts(data, fs, edits) + AddedTexts(adds)) + [RBRACE]
  }

  predicate UsesValidEdit(f: Field, edits: map<Name, Edit>) {
    !Deleted(f, edits) && Replacement(f, edits).Some? ==> JsonValid(Replacement(f, edits).value)
  }

  /** A member that is copied has a span that is not turned around. */
  predicate SpanForward(f: Field, edits: map<Name, Edit>) {
    !Deleted(f, edits) && Replacement(f, edits).None? ==> f.key.start <= f.value.end
  }

  ghost predicate EditsValid(fs: seq<Field>, edits: map<Name, Edit>, adds: seq<Addition>) {
    && (forall k | 0 <= k < |fs| :: UsesValidEdit(fs[k], edits))
    && (forall k | 0 <= k < |adds| :: JsonValid(adds[k].value))
  }

  /** The fields lie in the source, as those of an index do. */
  ghost predicate InSource(data: seq<byte>, f: Field) {
    0 <= f.key.start <= f.key.end <= f.value.end <= |data|
  }

  lemma ContentSnoc(data: seq<byte>, parts: seq<Part>, p: Part)
    ensures Content(data, parts + [p]) == Content(data, parts) + PartText(data, p)
  {
    assert (parts + [p])[..|parts|] == parts;
  }

  /** One more member text joins what is written so far. */
  lemma JoinSnoc(texts: seq<seq<byte>>, t: seq<byte>)
    ensures CommaJoined(texts + [t]) == CommaJoined(texts) + (if texts == [] then [] else [COMMA]) + t
  {
    assert (texts + [t])[..|texts|] == texts;
  }

  lemma SnocPrefix<T>(s: seq<T>, i: nat)
    requires i < |s|
    ensures s[..i + 1] == s[..i] + [s[i]] && s[..i + 1][..i] == s[..i]
  {
  }

  /** The accumulators of the rewriter: parts, totalSize, writtenFields. */
  datatype Output = Output(parts: seq<Part>, size: int, written: nat)

  ghost predicate Holds(data: seq<byte>, out: Output, texts: seq<seq<byte>>) {
    && Content(data, out.parts) == [LBRACE] + CommaJoined(texts)
    && out.size == |Content(data, out.parts)|
    && out.written == |texts|
  }

  method AppendComma(ghost data: seq<byte>, out: Output) returns (r: Output)
    ensures r.written == out.written + 1
    ensures Content(data, r.parts) == Content(data, out.parts) + (if out.written == 0 then [] else [COMMA])
    ensures r.size == out.size + (if out.written == 0 then 0 else 1)
  {
    r := out.(written := out.written + 1);
    if out.written > 0 {
      ContentSnoc(data, out.parts, Literal([COMMA]));
      r := r.(parts := out.parts + [Literal([COMMA])], size := out.size + 1);
    }
  }

  method CopyMember(ghost data: seq<byte>, out: Output, f: Field, ghost texts: seq<seq<byte>>) returns (r: Output)
    requires f.key.start <= f.value.end
    ensures Holds(data, out, texts) && InSource(data, f) ==>
              Holds(data, r, texts + [Cut(data, Span(f.key.start, f.value.end))])
  {
    hide Content, CommaJoined, PartText, Cut;
    ghost var t := Cut(data, Span(f.key.start, f.value.end));
    JoinSnoc(texts, t);
    var length := f.value.end - f.key.start;
    r := AppendComma(data, out);
    SectionText(data, f.key.start, length);
    ContentSnoc(data, r.parts, Section(f.key.start, length));
    r := r.(parts := r.parts + [Section(f.key.start, length)], size := r.size + length);
    if Holds(data, out, texts) {
      ghost var sep := if texts == [] then [] else [COMMA];
      assert [LBRACE] + CommaJoined(texts) + sep + t == [LBRACE] + (CommaJoined(texts) + sep + t);
    }
  }

  method AppendMember(ghost data: seq<byte>, out: Output, key: Part, keyLength: int, value: seq<byte>, ghost texts: seq<seq<byte>>)
      returns (r: Output)
    ensures Holds(data, out, texts) && keyLength == |PartText(data, key)| ==>
              Holds(data, r, texts + [PartText(data, key) + [COLON] + value])
  {
    hide Content, CommaJoined, PartText;
    ghost var k := PartText(data, key);
    JoinSnoc(texts, k + [COLON] + value);
    r := AppendComma(data, out);
    ghost var before := Content(data, r.parts);
    var parts := AppendThree(data, r.parts, key, value);
    r := r.(parts := parts, size := r.size + keyLength + 1 + |value|);
    if Holds(data, out, texts) {
      ghost var sep := if texts == [] then [] else [COMMA];
      assert [LBRACE] + CommaJoined(texts) + sep + (k + [COLON] + value) == [LBRACE] + (CommaJoined(texts) + sep + (k + [COLON] + value));
    }
  }

  method AppendThree(ghost data: seq<byte>, parts: seq<Part>, key: Part, value: seq<byte>) returns (r: seq<Part>)
    ensures Content(data, r) == Content(data, parts) + (PartText(data, key) + [COLON] + value)
  {
    hide Content;
    r := parts + [key];
    ContentSnoc(data, parts, key);
    ContentSnoc(data, r, Literal([COLON]));
    r := r + [Literal([COLON])];
    ContentSnoc(data, r, Literal(value));
    r := r + [Literal(value)];
  }

  method WriteFields(ghost data: seq<byte>, fields: seq<Field>, edits: map<Name, Edit>, start: Output) returns (r: Option<Output>)
    requires Holds(data, start, [])
    ensures r.Some? <==> forall k | 0 <= k < |fields| :: UsesValidEdit(fields[k], edits) && SpanForward(fields[k], edits)
    ensures (forall k | 0 <= k < |fields| :: InSource(data, fields[k])) ==>
              && (r.Some? <==> forall k | 0 <= k < |fields| :: UsesValidEdit(fields[k], edits))
              && (r.Some? ==> Holds(data, r.value, KeptTexts(data, fields, edits)))
  {
    hide Holds, UsesValidEdit, Cut, JsonValid;
    ghost var ok := forall k | 0 <= k < |fields| :: InSource(data, fields[k]);
    var out := start;
    for i := 0 to |fields|
      invariant forall k | 0 <= k < i :: UsesValidEdit(fields[k], edits) && SpanForward(fields[k], edits)
      invariant ok ==> Holds(data, out, KeptTexts(data, fields[..i], edits))
    {
      var field := fields[i];
      SnocPrefix(fields, i);
      EditUse(field, edits);
      ghost var texts := KeptTexts(data, fields[..i], edits);
      assert fields[..i + 1] != [] && fields[..i + 1][|fields[..i + 1]| - 1] == field;
      if Deleted(field, edits) {
        assert texts + [] == texts;
        continue;
      }
      if Replacement(field, edits).None? {
        if field.value.end - field.key.start < 0 { return None; }
        out := CopyMember(data, out, field, texts);
      } else {
        var b := Replacement(field, edits).value;
        if !JsonValid(b) { return None; }
        var keyLength := field.key.end - field.key.start;
        SectionText(data, field.key.start, keyLength);
        assert field.key == Span(field.key.start, field.key.start + keyLength);
        out := AppendMember(data, out, Section(field.key.start, keyLength), keyLength, b, texts);
      }
    }
    assert fields[..|fields|] == fields;
    return Some(out);
  }

  lemma EditUse(f: Field, edits: map<Name, Edit>)
    ensures UsesValidEdit(f, edits) <==> Deleted(f, edits) || Replacement(f, edits).None? || JsonValid(Replacement(f, edits).value)
  {
  }

  lemma SectionText(data: seq<byte>, off: int, length: int)
    ensures 0 <= off <= off + length <= |data| ==> |PartText(data, Section(off, length))| == length
    ensures PartText(data, Section(off, length)) == Cut(data, Span(off, off + length))
  {
  }

  method WriteAdditions(ghost data: seq<byte>, additions: seq<Addition>, start: Output, ghost kept: seq<seq<byte>>) returns (r: Option<Output>)
    ensures r.Some? <==> forall k | 0 <= k < |additions| :: JsonValid(additions[k].value)
    ensures r.Some? && Holds(data, start, kept) ==> Holds(data, r.value, kept + AddedTexts(additions))
  {
    hide Holds, JsonValid, AddedTexts, EncodeName;
    var out := start;
    AddedNothing(additions, kept);
    for i := 0 to |additions|
      invariant forall k | 0 <= k < i :: JsonValid(additions[k].value)
      invariant Holds(data, start, kept) ==> Holds(data, out, kept + AddedTexts(additions[..i]))
    {
      var addition := additions[i];
      if !JsonValid(addition.value) { return None; }
      var name := EncodeName(addition.name);
      AddedOneMore(additions, i, kept);
      out := AppendMember(data, out, Literal(name), |name|, addition.value, kept + AddedTexts(additions[..i]));
    }
    assert additions[..|additions|] == additions;
    return Some(out);
  }

  lemma AddedNothing(additions: seq<Addition>, kept: seq<seq<byte>>)
    ensures kept + AddedTexts(additions[..0]) == kept
  {
  }

  lemma AddedOneMore(additions: seq<Addition>, i: nat, kept: seq<seq<byte>>)
    requires i < |additions|
    ensures var a := additions[i];
            kept + AddedTexts(additions[..i + 1]) == kept + AddedTexts(additions[..i]) + [EncodeName(a.name) + [COLON] + a.value]
  {
    hide EncodeName;
    SnocPrefix(additions, i);
  }

  /** Builds the parts of the rewritten object and its exact size, or fails on a field
      span turned around or a replacement or addition that is not JSON. */
  method NewTopLevelJSONObjectReader(ghost data: seq<byte>, fields: seq<Field>, edits: map<Name, Edit>, additions: seq<Addition>)
      returns (r: Option<(seq<Part>, int)>)
    ensures r.Some? <==> EditsValid(fields, edits, additions) && forall k | 0 <= k < |fields| :: SpanForward(fields[k], edits)
    ensures (forall k | 0 <= k < |fields| :: InSource(data, fields[k])) ==>
              && (r.Some? <==> EditsValid(fields, edits, additions))
              && (r.Some? ==> Content(data, r.value.0) == Rewritten(data, fields, edits, additions) && r.value.1 == |Content(data, r.value.0)|)
  {
    hide InSource, UsesValidEdit, JsonValid, KeptTexts, AddedTexts;
    var out := Output([Literal([LBRACE])], 1, 0);
    ContentSnoc(data, [], Literal([LBRACE]));
    var written := WriteFields(data, fields, edits, out);
    if written.None? { return None; }
    var all := WriteAdditions(data, additions, written.value, KeptTexts(data, fields, edits));
    if all.None? { return None; }
    ContentSnoc(data, all.value.parts, Literal([RBRACE]));
    return Some((all.value.parts + [Literal([RBRACE])], all.value.size + 1));
  }
}
