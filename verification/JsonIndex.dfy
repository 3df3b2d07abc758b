/** Indexing a range of a source: which ranges succeed and what is returned. */
module JsonIndex {
  import opened Options
  import opened Bytes
  import opened JsonGrammar
  import opened JsonParse
  import opened JsonSound
  import opened JsonComplete
  import opened KeyNames

  const MAX_DEPTH: int := 1000
  const MAX_KEY_BYTES: int := 0x100000

  datatype Field = Field(name: seq<byte>, key: Span, value: Span)

  /** The bytes a scanner of a range ending at `end` can reach. */
  function Readable(data: seq<byte>, end: nat): (s: seq<byte>) {
    if end <= |data| then data[..end] else data
  }

  function Cut(data: seq<byte>, span: Span): (b: seq<byte>)
  {
    if 0 <= span.start <= span.end <= |data| then data[span.start..span.end] else []
  }

  predicate KeyFits(e: Entry) { e.key.end - e.key.start <= MAX_KEY_BYTES }

  predicate KeysFit(es: seq<Entry>) { forall i | 0 <= i < |es| :: KeyFits(es[i]) }

  /** The unbuffered indexer. Only an object index reads its keys back, so only it limits them. */
  function IndexEntries(kind: Kind, data: seq<byte>, span: Span): Option<seq<Entry>> {
    if span.start < 0 || span.end < span.start then None else
    var s := Readable(data, span.end);
    match ScanColl(kind, s, SkipWs(s, span.start), MAX_DEPTH)
    case None => None
    case Some(c) =>
      if kind.Object? && !KeysFit(c.entries) then None
      else if SkipWs(s, c.end) != span.end then None
      else Some(c.entries)
  }

  function NamedField(data: seq<byte>, e: Entry): Field {
    Field(DecodeName(Cut(data, e.key)), e.key, e.value)
  }

  function Named(data: seq<byte>, es: seq<Entry>): (fs: seq<Field>)
    ensures |fs| == |es|
  {
    seq(|es|, i requires 0 <= i < |es| => NamedField(data, es[i]))
  }

  function IndexFields(data: seq<byte>, span: Span): Option<seq<Field>> {
    match IndexEntries(Object, data, span)
    case None => None
    case Some(es) => Some(Named(data, es))
  }

  function Values(es: seq<Entry>): seq<Span> {
    seq(|es|, i requires 0 <= i < |es| => es[i].value)
  }

  function IndexValues(data: seq<byte>, span: Span): Option<seq<Span>> {
    match IndexEntries(Array, data, span)
    case None => None
    case Some(es) => Some(Values(es))
  }

  // ----- the grammar side

  datatype Doc = Doc(lead: seq<byte>, v: Json, trail: seq<byte>)

  /** The range holds one object or array, with whitespace around it and nothing else. */
  ghost predicate IsDocument(kind: Kind, data: seq<byte>, span: Span, d: Doc) {
    && 0 <= span.start <= span.end <= |data|
    && AllWs(d.lead) && AllWs(d.trail) && IsColl(d.v, kind) && Wf(d.v)
    && data[span.start..span.end] == d.lead + Text(d.v) + d.trail
  }

  ghost predicate KeysShort(items: Items) {
    && (items.item.name.Label? ==> |items.item.name.key| + 2 <= MAX_KEY_BYTES)
    && (items.More? ==> KeysShort(items.rest))
  }

  /** Depth: at most 1000 by the two-per-level counter, which starts at the outermost
      container's own bracket. Keys: at most 1 MiB with their quotes, in a direct member. */
  ghost predicate WithinLimits(v: Json) {
    && Deep(v) - 1 <= MAX_DEPTH
    && (v.Full? && v.kind.Object? ==> KeysShort(v.items))
  }

  lemma DocLayout(kind: Kind, data: seq<byte>, span: Span, d: Doc)
    requires 0 <= span.start <= span.end <= |data|
    ensures var s := data[..span.end];
            data[span.start..span.end] == d.lead + Text(d.v) + d.trail <==>
            (var i := span.start + |d.lead|;
             At(s, span.start, d.lead) && Fits(d.v, s, i) && At(s, i + Len(d.v), d.trail) &&
             i + Len(d.v) + |d.trail| == span.end)
  {
    hide Fits, Len, Text;
    var s := data[..span.end];
    var t := d.lead + Text(d.v) + d.trail;
    Layout(d.v, s, span.start + |d.lead|);
    TextLen(d.v);
    AtSplit3(s, span.start, d.lead, Text(d.v), d.trail);
    AtSlice(s, span.start, t);
    assert s[span.start..] == data[span.start..span.end];
  }

  lemma {:induction false} KeysShortIsKeysFit(items: Items, i: nat)
    ensures KeysShort(items) <==> KeysFit(Entries(items, i))
    decreases items
  {
    hide LenItem, LenLabel, Len;
    var es := Entries(items, i);
    assert es[0] == ItemEntry(items.item, i);
    if items.More? {
      KeysShortIsKeysFit(items.rest, i + LenItem(items.item) + 1);
      assert es[1..] == Entries(items.rest, i + LenItem(items.item) + 1);
      assert KeysFit(es) <==> KeyFits(es[0]) && KeysFit(es[1..]) by {
        assert forall k | 0 < k < |es| :: es[k] == es[1..][k - 1];
      }
    }
  }

  lemma LimitsAreKeysFit(kind: Kind, v: Json, i: nat)
    requires IsColl(v, kind)
    ensures (v.Full? && kind.Object? ==> KeysShort(v.items)) <==> (kind.Object? ==> KeysFit(CollEntries(v, i)))
  {
    hide KeysShort, Entries;
    if v.Full? { KeysShortIsKeysFit(v.items, i + 1); }
  }

  /** What is indexed is a document within the limits. */
  lemma IndexSound(kind: Kind, data: seq<byte>, span: Span) returns (d: Doc)
    requires IndexEntries(kind, data, span).Some?
    ensures IsDocument(kind, data, span, d) && WithinLimits(d.v)
    ensures IndexEntries(kind, data, span) == Some(CollEntries(d.v, span.start + |d.lead|))
  {
    hide At, AllWs, Wf, Fits, Len, Deep, KeysShort, KeysFit, ScanColl, CollEntries, Text;
    var s := Readable(data, span.end);
    var i := SkipWs(s, span.start);
    var v := CollSound(kind, s, i, MAX_DEPTH);
    var lead := WsGap(s, span.start);
    var trail := WsGap(s, i + Len(v));
    d := Doc(lead, v, trail);
    LimitsAreKeysFit(kind, v, i);
    DocLayout(kind, data, span, d);
  }

  /** A document is indexed, with the spans of its tree, exactly when it is within the limits. */
  lemma IndexComplete(kind: Kind, data: seq<byte>, span: Span, d: Doc)
    requires IsDocument(kind, data, span, d)
    ensures IndexEntries(kind, data, span) ==
            if WithinLimits(d.v) then Some(CollEntries(d.v, span.start + |d.lead|)) else None
  {
    hide At, AllWs, Wf, Fits, Len, Deep, KeysShort, KeysFit, ScanColl, CollEntries, Text;
    DocLayout(kind, data, span, d);
    var s := Readable(data, span.end);
    var i := span.start + |d.lead|;
    FitsFirst(d.v, s, i);
    WsSkipped(s, span.start, d.lead);
    CollComplete(kind, s, i, d.v, MAX_DEPTH);
    LimitsAreKeysFit(kind, d.v, i);
    WsSkipped(s, i + Len(d.v), d.trail);
  }

  /** Indexing succeeds exactly on the documents within the limits. */
  lemma IndexExact(kind: Kind, data: seq<byte>, span: Span)
    ensures IndexEntries(kind, data, span).Some? <==>
            exists d :: IsDocument(kind, data, span, d) && WithinLimits(d.v)
  {
    hide IndexEntries, IsDocument, WithinLimits;
    if IndexEntries(kind, data, span).Some? {
      var d := IndexSound(kind, data, span);
    }
    forall d | IsDocument(kind, data, span, d) && WithinLimits(d.v)
      ensures IndexEntries(kind, data, span).Some?
    {
      IndexComplete(kind, data, span, d);
    }
  }
}
