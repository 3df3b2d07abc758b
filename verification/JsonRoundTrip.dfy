/** Indexing what the rewriter wrote gives the edited list back. */
module JsonRoundTrip {
  import opened Options
  import opened Bytes
  import opened JsonGrammar
  import opened JsonParse
  import opened JsonIndex
  import opened JsonSound
  import opened JsonSpans
  import opened KeyNames
  import opened StdJson
  import opened JsonRewrite

  /** A field as a reader of the bytes sees it: decoded name, raw quoted key, raw value. */
  datatype Raw = Raw(name: Name, key: seq<byte>, value: seq<byte>)

  function RawField(data: seq<byte>, f: Field): Raw { Raw(f.name, Cut(data, f.key), Cut(data, f.value)) }

  function RawFields(data: seq<byte>, fs: seq<Field>): (r: seq<Raw>)
    ensures |r| == |fs|
  {
    seq(|fs|, k requires 0 <= k < |fs| => RawField(data, fs[k]))
  }

  /** A JSON text without the whitespace around it. */
  function Stripped(b: seq<byte>): seq<byte> {
    var r := ScanValue(b, 0, 2 * STD_LEVELS);
    if r.Some? then b[r.value.start..r.value.end] else b
  }

  /** The list the caller asked for: named fields dropped or given a new value, in place. */
  function EditedRaws(raws: seq<Raw>, edits: map<Name, Edit>): seq<Raw> {
    if raws == [] then []
    else
      var r := raws[|raws| - 1];
      EditedRaws(raws[..|raws| - 1], edits) +
      if r.name !in edits then [r]
      else if edits[r.name].delete then []
      else match edits[r.name].replacement
        case None => [r]
        case Some(b) => [r.(value := Stripped(b))]
  }

  function AddedRaws(adds: seq<Addition>): seq<Raw> {
    if adds == [] then []
    else
      var a := adds[|adds| - 1];
      AddedRaws(adds[..|adds| - 1]) + [Raw(DecodeName(EncodeName(a.name)), EncodeName(a.name), Stripped(a.value))]
  }

  /** A value that is not too deep for a member of an indexed object. */
  predicate ShallowValue(b: seq<byte>) { ScanValue(b, 0, MAX_DEPTH - 1).Some? }

  predicate ShallowUse(f: Field, edits: map<Name, Edit>) {
    !Deleted(f, edits) && Replacement(f, edits).Some? ==> ShallowValue(Replacement(f, edits).value)
  }

  predicate AdditionFits(a: Addition) { ShallowValue(a.value) && |EncodeName(a.name)| <= MAX_KEY_BYTES }

  ghost predicate EditsFit(fs: seq<Field>, edits: map<Name, Edit>, adds: seq<Addition>) {
    (forall k | 0 <= k < |fs| :: ShallowUse(fs[k], edits)) && (forall k | 0 <= k < |adds| :: AdditionFits(adds[k]))
  }

  // ----- items as sequences

  ghost function ToSeq(items: Items): seq<Item> {
    match items
    case One(it) => [it]
    case More(it, rest) => [it] + ToSeq(rest)
  }

  ghost function FromSeq(its: seq<Item>): Items
    requires its != []
  {
    if |its| == 1 then One(its[0]) else More(its[0], FromSeq(its[1..]))
  }

  /** What a field of an index has to do with the item it was found in. */
  ghost predicate Matches(data: seq<byte>, f: Field, it: Item) {
    && it.name.Label? && InSource(data, f)
    && Cut(data, f.key) == Quoted(it.name.key)
    && Cut(data, f.value) == Text(it.value)
    && Cut(data, Span(f.key.start, f.value.end)) == LabelText(it.name) + Text(it.value)
    && f.name == DecodeName(Quoted(it.name.key))
  }

  lemma CutIsAt(data: seq<byte>, i: nat, t: seq<byte>)
    requires At(data, i, t)
    ensures Cut(data, Span(i, i + |t|)) == t
  {
    AtSlice(data, i, t);
  }

  lemma FieldMatches(data: seq<byte>, it: Item, i: nat)
    requires WfItem(Object, it) && FitsItem(it, data, i)
    ensures Matches(data, NamedField(data, ItemEntry(it, i)), it)
  {
    hide At, Text, Fits, Len, Wf, IsStringBody, AllWs, Cut, DecodeName, FitsLabel, LabelText;
    var k := i + |it.lead|;
    var v := k + LenLabel(it.name);
    LabelLayout(it.name, data, k);
    Layout(it.value, data, v);
    TextLen(it.value);
    AtSplit(data, k, LabelText(it.name), Text(it.value));
    CutIsAt(data, k, LabelText(it.name) + Text(it.value));
    CutIsAt(data, v, Text(it.value));
    KeyCut(data, it.name, k);
    InBounds(data, v, Text(it.value));
  }

  lemma InBounds(data: seq<byte>, i: nat, t: seq<byte>)
    requires At(data, i, t)
    ensures i + |t| <= |data|
  {
  }

  lemma KeyCut(data: seq<byte>, l: Label, k: nat)
    requires l.Label? && FitsLabel(l, data, k)
    ensures Cut(data, Span(k, k + |l.key| + 2)) == Quoted(l.key)
  {
    hide At, Cut, FitsQuoted;
    QuotedLayout(l.key, data, k);
    CutIsAt(data, k, Quoted(l.key));
  }

  lemma {:induction false} FieldsMatch(data: seq<byte>, items: Items, i: nat)
    requires WfItems(Object, items) && FitsItems(items, data, i)
    ensures |Entries(items, i)| == |ToSeq(items)|
    ensures forall k | 0 <= k < |ToSeq(items)| :: Matches(data, NamedField(data, Entries(items, i)[k]), ToSeq(items)[k])
    decreases items
  {
    hide WfItem, FitsItem, Matches, NamedField, LenItem, ItemEntry;
    FieldMatches(data, items.item, i);
    if items.More? {
      FieldsMatch(data, items.rest, i + LenItem(items.item) + 1);
    }
  }

  ghost predicate ItemLimit(it: Item) {
    it.name.Label? && |it.name.key| + 2 <= MAX_KEY_BYTES && Deep(it.value) <= MAX_DEPTH - 1
  }

  lemma {:induction false} LimitsByItem(items: Items)
    requires WfItems(Object, items)
    ensures KeysShort(items) && DeepItems(items) <= MAX_DEPTH - 1 <==> AllFit(ToSeq(items))
    decreases items
  {
    hide Deep, Wf, ItemLimit;
    var its := ToSeq(items);
    assert its[0] == items.item;
    OneLimit(items.item);
    if items.More? {
      LimitsByItem(items.rest);
      assert its[1..] == ToSeq(items.rest);
      assert AllFit(its) <==> ItemLimit(its[0]) && AllFit(its[1..]) by {
        assert forall k | 0 < k < |its| :: its[k] == its[1..][k - 1];
      }
    }
  }

  lemma OneLimit(it: Item)
    requires WfItem(Object, it)
    ensures ItemLimit(it) <==> |it.name.key| + 2 <= MAX_KEY_BYTES && Deep(it.value) <= MAX_DEPTH - 1
  {
    hide Deep, Wf;
  }

  lemma {:induction false} SeqRoundTrip(its: seq<Item>)
    requires its != []
    ensures ToSeq(FromSeq(its)) == its
    decreases |its|
  {
    if |its| > 1 {
      SeqRoundTrip(its[1..]);
      assert its == [its[0]] + its[1..];
    }
  }

  lemma {:induction false} WfFromSeq(its: seq<Item>)
    requires its != [] && forall k | 0 <= k < |its| :: WfItem(Object, its[k])
    ensures WfItems(Object, FromSeq(its))
    decreases |its|
  {
    hide WfItem;
    if |its| > 1 { WfFromSeq(its[1..]); }
  }

  lemma {:induction false} JoinCons(t: seq<byte>, texts: seq<seq<byte>>)
    requires texts != []
    ensures CommaJoined([t] + texts) == t + ([COMMA] + CommaJoined(texts))
    decreases |texts|
  {
    var n := |texts| - 1;
    assert ([t] + texts)[..n + 1] == [t] + texts[..n] && ([t] + texts)[n + 1] == texts[n];
    if n == 0 {
      assert CommaJoined([t]) == t;
      assert t + [COMMA] + texts[0] == t + ([COMMA] + texts[0]);
    } else {
      hide CommaJoined;
      JoinCons(t, texts[..n]);
      JoinLast(texts, n);
      JoinLast([t] + texts, n + 1);
      JoinShift(t, CommaJoined(texts[..n]), texts[n]);
    }
  }

  lemma JoinLast(texts: seq<seq<byte>>, n: nat)
    requires |texts| == n + 1 > 1
    ensures CommaJoined(texts) == CommaJoined(texts[..n]) + [COMMA] + texts[n]
  {
  }

  lemma JoinShift(t: seq<byte>, mid: seq<byte>, last: seq<byte>)
    ensures t + ([COMMA] + mid) + [COMMA] + last == t + ([COMMA] + (mid + [COMMA] + last))
  {
  }

  lemma {:induction false} JoinIsItemsText(its: seq<Item>, texts: seq<seq<byte>>)
    requires its != [] && |its| == |texts| && forall k | 0 <= k < |its| :: ItemText(its[k]) == texts[k]
    ensures ItemsText(FromSeq(its)) == CommaJoined(texts)
    decreases |its|
  {
    hide ItemText;
    if |its| > 1 {
      JoinIsItemsText(its[1..], texts[1..]);
      assert texts == [texts[0]] + texts[1..];
      JoinCons(texts[0], texts[1..]);
    }
  }

  // ----- the items the rewriter writes

  /** What a written item is: its text, and how it reads back. */
  ghost predicate Writes(it: Item, text: seq<byte>, raw: Raw) {
    && WfItem(Object, it) && ItemText(it) == text
    && raw == Raw(DecodeName(Quoted(it.name.key)), Quoted(it.name.key), Text(it.value))
  }

  ghost predicate AllWrite(its: seq<Item>, texts: seq<seq<byte>>, raws: seq<Raw>) {
    |its| == |texts| == |raws| && forall k | 0 <= k < |its| :: Writes(its[k], texts[k], raws[k])
  }

  ghost predicate AllFit(its: seq<Item>) { forall k | 0 <= k < |its| :: ItemLimit(its[k]) }

  /** No whitespace before the key or after the value. */
  ghost predicate Tight(it: Item) { it.lead == [] && it.trail == [] }

  ghost predicate AllTight(its: seq<Item>) { forall k | 0 <= k < |its| :: Tight(its[k]) }

  lemma CopiedItem(data: seq<byte>, f: Field, it: Item) returns (it': Item)
    requires Matches(data, f, it) && WfItem(Object, it)
    ensures Writes(it', Cut(data, Span(f.key.start, f.value.end)), RawField(data, f))
    ensures (ItemLimit(it') <==> ItemLimit(it)) && Tight(it')
  {
    hide Wf, Text, Deep, Cut, LabelText, DecodeName, Quoted, IsStringBody;
    it' := Item([], it.name, it.value, []);
    assert ItemText(it') == LabelText(it.name) + Text(it.value);
  }

  /** A value text under a key: the item, its text and its raw value. */
  lemma ValueItem(key: seq<byte>, b: seq<byte>) returns (it: Item)
    requires IsStringBody(key) && JsonValid(b)
    ensures Writes(it, Quoted(key) + [COLON] + b, Raw(DecodeName(Quoted(key)), Quoted(key), Stripped(b)))
    ensures ItemLimit(it) <==> |key| + 2 <= MAX_KEY_BYTES && ShallowValue(b)
  {
    hide Wf, Deep, Levels, DecodeName, IsStringBody, JsonValid, IsText;
    var d := ValidSound(b);
    DeepIsTwicePerLevel(d.v);
    TextScan(b, d, 2 * STD_LEVELS);
    TextScan(b, d, MAX_DEPTH - 1);
    it := TextItem(key, b, d);
    StripText(b, d);
  }

  lemma TextItem(key: seq<byte>, b: seq<byte>, d: Doc) returns (it: Item)
    requires IsStringBody(key) && IsText(b, d)
    ensures WfItem(Object, it) && ItemText(it) == Quoted(key) + [COLON] + b
    ensures it.name.Label? && it.name.key == key && it.value == d.v
  {
    hide Wf, Text, IsStringBody, Quoted;
    it := Item([], Label(key, [], d.lead), d.v, d.trail);
    assert ItemText(it) == Quoted(key) + ([] + [COLON] + d.lead) + (Text(d.v) + d.trail);
  }

  lemma StripText(b: seq<byte>, d: Doc)
    requires IsText(b, d) && ScanValue(b, 0, 2 * STD_LEVELS) == Some(Span(|d.lead|, |d.lead| + Len(d.v)))
    ensures Stripped(b) == Text(d.v)
  {
    hide Wf, Text, ScanValue, Len;
    TextLen(d.v);
  }

  lemma AllSnoc(its: seq<Item>, texts: seq<seq<byte>>, raws: seq<Raw>, it: Item, text: seq<byte>, raw: Raw)
    requires AllWrite(its, texts, raws) && Writes(it, text, raw)
    ensures AllWrite(its + [it], texts + [text], raws + [raw])
    ensures AllFit(its + [it]) <==> AllFit(its) && ItemLimit(it)
    ensures AllTight(its + [it]) <==> AllTight(its) && Tight(it)
  {
    hide Writes, ItemLimit, Tight;
    var all := its + [it];
    assert all[|its|] == it && forall k | 0 <= k < |its| :: all[k] == its[k];
  }

  /** One field: nothing if it is deleted, else the member the rewriter writes for it. */
  lemma FieldItem(data: seq<byte>, f: Field, edits: map<Name, Edit>, it: Item) returns (it': Item)
    requires !Deleted(f, edits) && UsesValidEdit(f, edits) && Matches(data, f, it) && WfItem(Object, it) && ItemLimit(it)
    ensures Writes(it', MemberText(data, f, edits),
                   if Replacement(f, edits).None? then RawField(data, f)
                   else RawField(data, f).(value := Stripped(Replacement(f, edits).value)))
    ensures ItemLimit(it') <==> ShallowUse(f, edits)
    ensures Replacement(f, edits).None? ==> Tight(it')
  {
    hide Wf, Text, Deep, Cut, LabelText, DecodeName, Quoted, IsStringBody, Stripped, ShallowValue, JsonValid;
    match Replacement(f, edits)
    case None => it' := CopiedItem(data, f, it);
    case Some(b) => it' := ValueItem(it.name.key, b);
  }

  lemma {:induction false} KeptItems(data: seq<byte>, fs: seq<Field>, edits: map<Name, Edit>, its: seq<Item>) returns (news: seq<Item>)
    requires |fs| == |its|
    requires forall k | 0 <= k < |fs| :: Matches(data, fs[k], its[k]) && WfItem(Object, its[k]) && ItemLimit(its[k]) && UsesValidEdit(fs[k], edits)
    ensures AllWrite(news, KeptTexts(data, fs, edits), EditedRaws(RawFields(data, fs), edits))
    ensures AllFit(news) <==> forall k | 0 <= k < |fs| :: ShallowUse(fs[k], edits)
    ensures edits == map[] ==> AllTight(news)
    decreases |fs|
  {
    hide AllTight, Tight, Matches, WfItem, ItemLimit, UsesValidEdit, ShallowUse, AllWrite, AllFit, MemberText, Stripped, Cut;
    if fs == [] {
      news := [];
      assert RawFields(data, fs) == [];
      NothingWritten();
    } else {
      var n := |fs| - 1;
      news := KeptItems(data, fs[..n], edits, its[..n]);
      RawSnoc(data, fs);
      if Deleted(fs[n], edits) {
        ShallowSnoc(fs, edits);
        DeletedShallow(fs[n], edits);
        assert KeptTexts(data, fs, edits) == KeptTexts(data, fs[..n], edits) + [] == KeptTexts(data, fs[..n], edits);
        var raws := EditedRaws(RawFields(data, fs[..n]), edits);
        assert EditedRaws(RawFields(data, fs), edits) == raws + [] == raws;
      } else {
        var it := FieldItem(data, fs[n], edits, its[n]);
        ShallowSnoc(fs, edits);
        var raw := if Replacement(fs[n], edits).None? then RawField(data, fs[n])
                   else RawField(data, fs[n]).(value := Stripped(Replacement(fs[n], edits).value));
        assert KeptTexts(data, fs[..n], edits) + [MemberText(data, fs[n], edits)] == KeptTexts(data, fs, edits);
        assert EditedRaws(RawFields(data, fs[..n]), edits) + [raw] == EditedRaws(RawFields(data, fs), edits);
        AllSnoc(news, KeptTexts(data, fs[..n], edits), EditedRaws(RawFields(data, fs[..n]), edits), it, MemberText(data, fs[n], edits), raw);
        news := news + [it];
      }
    }
  }

  lemma NothingWritten()
    ensures AllWrite([], [], []) && AllFit([]) && AllTight([])
  {
  }

  lemma DeletedShallow(f: Field, edits: map<Name, Edit>)
    requires Deleted(f, edits)
    ensures ShallowUse(f, edits)
  {
  }

  lemma ShallowSnoc(fs: seq<Field>, edits: map<Name, Edit>)
    requires fs != []
    ensures var n := |fs| - 1;
            (forall k | 0 <= k < |fs| :: ShallowUse(fs[k], edits)) <==>
            (forall k | 0 <= k < n :: ShallowUse(fs[..n][k], edits)) && ShallowUse(fs[n], edits)
  {
    hide ShallowUse;
    var n := |fs| - 1;
    assert forall k | 0 <= k < n :: fs[..n][k] == fs[k];
  }

  lemma RawSnoc(data: seq<byte>, fs: seq<Field>)
    requires fs != []
    ensures var n := |fs| - 1; var raws := RawFields(data, fs);
            raws[..n] == RawFields(data, fs[..n]) && raws[n] == RawField(data, fs[n])
  {
    hide RawField;
  }

  lemma {:induction false} AddedItems(adds: seq<Addition>) returns (news: seq<Item>)
    requires forall k | 0 <= k < |adds| :: JsonValid(adds[k].value)
    ensures AllWrite(news, AddedTexts(adds), AddedRaws(adds))
    ensures AllFit(news) <==> forall k | 0 <= k < |adds| :: AdditionFits(adds[k])
    decreases |adds|
  {
    hide JsonValid, AllWrite, AllFit, Stripped, AdditionFits, DecodeName, EncodeName, Writes, ItemLimit;
    if adds == [] {
      news := [];
      NothingWritten();
    } else {
      var n := |adds| - 1;
      var a := adds[n];
      news := AddedItems(adds[..n]);
      var it := AddedItem(a);
      AllSnoc(news, AddedTexts(adds[..n]), AddedRaws(adds[..n]), it, EncodeName(a.name) + [COLON] + a.value,
              Raw(DecodeName(EncodeName(a.name)), EncodeName(a.name), Stripped(a.value)));
      FitsSnoc(adds);
      news := news + [it];
    }
  }

  lemma FitsSnoc(adds: seq<Addition>)
    requires adds != []
    ensures var n := |adds| - 1;
            (forall k | 0 <= k < |adds| :: AdditionFits(adds[k])) <==>
            (forall k | 0 <= k < n :: AdditionFits(adds[..n][k])) && AdditionFits(adds[n])
  {
    hide AdditionFits;
    var n := |adds| - 1;
    assert forall k | 0 <= k < n :: adds[..n][k] == adds[k];
  }

  lemma AddedItem(a: Addition) returns (it: Item)
    requires JsonValid(a.value)
    ensures Writes(it, EncodeName(a.name) + [COLON] + a.value,
                   Raw(DecodeName(EncodeName(a.name)), EncodeName(a.name), Stripped(a.value)))
    ensures ItemLimit(it) <==> AdditionFits(a)
  {
    hide JsonValid, Stripped, DecodeName, ItemLimit, Writes, ShallowValue;
    EncodedIsBody(a.name);
    it := ValueItem(EncodeBody(a.name), a.value);
    assert EncodeName(a.name) == Quoted(EncodeBody(a.name));
  }

  // ----- the theorems

  lemma {:induction false} WfToSeq(items: Items)
    requires WfItems(Object, items)
    ensures forall k | 0 <= k < |ToSeq(items)| :: WfItem(Object, ToSeq(items)[k])
    decreases items
  {
    hide WfItem;
    if items.More? { WfToSeq(items.rest); }
  }

  /** The items behind an index. */
  lemma IndexedItems(data: seq<byte>, span: Span) returns (its: seq<Item>)
    requires IndexFields(data, span).Some?
    ensures var fs := IndexFields(data, span).value;
            |its| == |fs| && forall k | 0 <= k < |fs| :: Matches(data, fs[k], its[k]) && WfItem(Object, its[k]) && ItemLimit(its[k])
  {
    hide At, AllWs, Wf, Fits, FitsItems, WfItems, DeepItems, Text, Len, KeysShort, IndexEntries, Matches, WfItem, ItemLimit, NamedField, Entries, ToSeq;
    var d := IndexSound(Object, data, span);
    var i := span.start + |d.lead|;
    DocInData(Object, data, span, d);
    if d.v.Empty? {
      its := [];
    } else {
      assert WfItems(Object, d.v.items) && FitsItems(d.v.items, data, i + 1) && DeepItems(d.v.items) <= MAX_DEPTH - 1 by {
        FullParts(d.v, data, i);
      }
      its := ToSeq(d.v.items);
      FieldsMatch(data, d.v.items, i + 1);
      WfToSeq(d.v.items);
      LimitsByItem(d.v.items);
    }
  }

  lemma FullParts(v: Json, data: seq<byte>, i: nat)
    requires v.Full? && Wf(v) && Fits(v, data, i)
    ensures WfItems(v.kind, v.items) && FitsItems(v.items, data, i + 1) && DeepItems(v.items) == Deep(v) - 2
  {
    hide WfItems, FitsItems, DeepItems;
  }

  ghost function ObjectOf(its: seq<Item>): Json {
    if its == [] then Empty(Object, []) else Full(Object, FromSeq(its))
  }

  /** Written items make an object document. */
  lemma WrittenDocument(its: seq<Item>, texts: seq<seq<byte>>, raws: seq<Raw>, out: seq<byte>)
    requires AllWrite(its, texts, raws) && out == [LBRACE] + CommaJoined(texts) + [RBRACE]
    ensures IsDocument(Object, out, Span(0, |out|), Doc([], ObjectOf(its), []))
    ensures WithinLimits(ObjectOf(its)) <==> AllFit(its)
  {
    hide WfItem, WfItems, DeepItems, KeysShort, ItemLimit, ItemText, ItemsText, CommaJoined, FromSeq, ToSeq, Text;
    var v := ObjectOf(its);
    assert out[0..|out|] == out;
    if its == [] {
      assert CommaJoined(texts) == [] by { JoinNothing(texts); }
      EmptyText();
    } else {
      JoinIsItemsText(its, texts);
      WfFromSeq(its);
      SeqRoundTrip(its);
      LimitsByItem(FromSeq(its));
      FullText(FromSeq(its));
    }
    assert [] + Text(v) + [] == Text(v);
  }

  lemma JoinNothing(texts: seq<seq<byte>>)
    requires texts == []
    ensures CommaJoined(texts) == []
  {
  }

  lemma EmptyText()
    ensures Text(Empty(Object, [])) == [LBRACE] + [] + [RBRACE]
  {
  }

  lemma FullText(items: Items)
    ensures Text(Full(Object, items)) == [LBRACE] + ItemsText(items) + [RBRACE]
  {
  }

  /** Indexing written items finds exactly them. */
  lemma WrittenReads(its: seq<Item>, texts: seq<seq<byte>>, raws: seq<Raw>, out: seq<byte>)
    requires AllWrite(its, texts, raws) && out == [LBRACE] + CommaJoined(texts) + [RBRACE]
    ensures var again := IndexFields(out, Span(0, |out|));
            && (again.Some? <==> AllFit(its))
            && (again.Some? ==> |again.value| == |its| && forall k | 0 <= k < |its| :: Matches(out, again.value[k], its[k]))
  {
    hide At, Wf, WfItem, ItemLimit, ItemText, CommaJoined, FromSeq, ToSeq, Text, Fits, FitsItems, WfItems, IndexEntries, WithinLimits, Matches, NamedField, Entries, AllFit, Len;
    var v := ObjectOf(its);
    var d := Doc([], v, []);
    WrittenDocument(its, texts, raws, out);
    IndexComplete(Object, out, Span(0, |out|), d);
    DocInData(Object, out, Span(0, |out|), d);
    if its != [] {
      WfFromSeq(its);
      SeqRoundTrip(its);
      FullParts(v, out, 0);
      FieldsMatch(out, FromSeq(its), 1);
    }
  }

  lemma MatchedRaws(out: seq<byte>, fs: seq<Field>, its: seq<Item>, texts: seq<seq<byte>>, raws: seq<Raw>)
    requires AllWrite(its, texts, raws) && |fs| == |its| && forall k | 0 <= k < |its| :: Matches(out, fs[k], its[k])
    ensures RawFields(out, fs) == raws
  {
    hide WfItem, ItemText, Text, Cut, LabelText, DecodeName, Quoted;
    forall k | 0 <= k < |fs| ensures RawField(out, fs[k]) == raws[k] {
      assert Writes(its[k], texts[k], raws[k]);
    }
  }

  lemma RewrittenItems(data: seq<byte>, span: Span, edits: map<Name, Edit>, adds: seq<Addition>) returns (its: seq<Item>)
    requires IndexFields(data, span).Some? && EditsValid(IndexFields(data, span).value, edits, adds)
    ensures var fs := IndexFields(data, span).value;
            && AllWrite(its, KeptTexts(data, fs, edits) + AddedTexts(adds), EditedRaws(RawFields(data, fs), edits) + AddedRaws(adds))
            && (AllFit(its) <==> EditsFit(fs, edits, adds))
            && (edits == map[] && adds == [] ==> AllTight(its))
  {
    hide Writes, ItemLimit, Tight, IndexFields, KeptTexts, AddedTexts, EditedRaws, AddedRaws, RawFields, Matches, WfItem, UsesValidEdit, JsonValid, ShallowUse, AdditionFits;
    var fs := IndexFields(data, span).value;
    var olds := IndexedItems(data, span);
    var kept := KeptItems(data, fs, edits, olds);
    var added := AddedItems(adds);
    its := kept + added;
    AllAppend(kept, added, KeptTexts(data, fs, edits), AddedTexts(adds), EditedRaws(RawFields(data, fs), edits), AddedRaws(adds));
    if adds == [] {
      assert |AddedTexts(adds)| == 0 by { NoAdditions(adds); }
      assert its == kept;
    }
  }

  lemma NoAdditions(adds: seq<Addition>)
    requires adds == []
    ensures AddedTexts(adds) == [] && AddedRaws(adds) == []
  {
  }

  lemma AllAppend(a: seq<Item>, b: seq<Item>, at: seq<seq<byte>>, bt: seq<seq<byte>>, ar: seq<Raw>, br: seq<Raw>)
    requires AllWrite(a, at, ar) && AllWrite(b, bt, br)
    ensures AllWrite(a + b, at + bt, ar + br) && (AllFit(a + b) <==> AllFit(a) && AllFit(b))
  {
    hide Writes, ItemLimit;
    var all := a + b;
    assert forall k | 0 <= k < |a| :: all[k] == a[k];
    assert forall k | 0 <= k < |b| :: all[|a| + k] == b[k];
  }

  /** Rewriting an indexed object and indexing the result gives the edited list: deleted
      names dropped, replacements in place at every field of the name, additions at the
      end, all else byte for byte. It is indexable exactly when the new values are
      shallow enough and the new names short enough. */
  lemma RewriteRoundTrip(data: seq<byte>, span: Span, edits: map<Name, Edit>, adds: seq<Addition>)
    requires IndexFields(data, span).Some? && EditsValid(IndexFields(data, span).value, edits, adds)
    ensures var fs := IndexFields(data, span).value;
            var out := Rewritten(data, fs, edits, adds);
            var again := IndexFields(out, Span(0, |out|));
            && (again.Some? <==> EditsFit(fs, edits, adds))
            && (again.Some? ==> RawFields(out, again.value) == EditedRaws(RawFields(data, fs), edits) + AddedRaws(adds))
  {
    hide IndexFields, EditsValid, EditsFit, AllWrite, AllFit, Matches, KeptTexts, AddedTexts, EditedRaws, AddedRaws, RawFields, CommaJoined;
    var fs := IndexFields(data, span).value;
    var out := Rewritten(data, fs, edits, adds);
    var its := RewrittenItems(data, span, edits, adds);
    var texts := KeptTexts(data, fs, edits) + AddedTexts(adds);
    var raws := EditedRaws(RawFields(data, fs), edits) + AddedRaws(adds);
    WrittenReads(its, texts, raws, out);
    var again := IndexFields(out, Span(0, |out|));
    if again.Some? { MatchedRaws(out, again.value, its, texts, raws); }
  }

  /** The fields of an index lie in the source, as the rewriter needs. */
  lemma IndexedInSource(data: seq<byte>, span: Span)
    requires IndexFields(data, span).Some?
    ensures forall k | 0 <= k < |IndexFields(data, span).value| :: InSource(data, IndexFields(data, span).value[k])
  {
    hide IndexFields, WfItem, ItemLimit, Cut, Quoted, Text, LabelText, DecodeName;
    var its := IndexedItems(data, span);
    forall k | 0 <= k < |IndexFields(data, span).value| ensures InSource(data, IndexFields(data, span).value[k]) {
      assert Matches(data, IndexFields(data, span).value[k], its[k]);
    }
  }

  lemma {:induction false} NoEdits(raws: seq<Raw>)
    ensures EditedRaws(raws, map[]) == raws
    decreases |raws|
  {
    hide Stripped;
    if raws != [] {
      var n := |raws| - 1;
      NoEdits(raws[..n]);
      assert raws[..n] + [raws[n]] == raws;
    }
  }

  lemma {:induction false} TightTexts(out: seq<byte>, fs: seq<Field>, its: seq<Item>, texts: seq<seq<byte>>, raws: seq<Raw>)
    requires AllWrite(its, texts, raws) && AllTight(its) && |fs| == |its|
    requires forall k | 0 <= k < |its| :: Matches(out, fs[k], its[k])
    ensures KeptTexts(out, fs, map[]) == texts
    decreases |fs|
  {
    hide WfItem, Text, LabelText, Quoted, DecodeName, Cut, InSource;
    if fs != [] {
      var n := |fs| - 1;
      TightTexts(out, fs[..n], its[..n], texts[..n], raws[..n]);
      assert Writes(its[n], texts[n], raws[n]) && Tight(its[n]) && Matches(out, fs[n], its[n]);
      assert ItemText(its[n]) == LabelText(its[n].name) + Text(its[n].value);
      assert MemberText(out, fs[n], map[]) == texts[n];
      assert texts == texts[..n] + [texts[n]];
    }
  }

  /** With nothing to change, every raw key and value is kept, the result is always
      indexable, and rewriting it again changes no byte. */
  lemma PlainRewrite(data: seq<byte>, span: Span)
    requires IndexFields(data, span).Some?
    ensures var fs := IndexFields(data, span).value;
            var out := Rewritten(data, fs, map[], []);
            var again := IndexFields(out, Span(0, |out|));
            && again.Some? && RawFields(out, again.value) == RawFields(data, fs)
            && Rewritten(out, again.value, map[], []) == out
  {
    hide IndexFields, AllWrite, AllFit, AllTight, Matches, EditedRaws, RawFields, CommaJoined, KeptTexts, ShallowValue, JsonValid;
    var fs := IndexFields(data, span).value;
    var out := Rewritten(data, fs, map[], []);
    RewriteRoundTrip(data, span, map[], []);
    NoEdits(RawFields(data, fs));
    var its := RewrittenItems(data, span, map[], []);
    var texts := KeptTexts(data, fs, map[]) + AddedTexts([]);
    var raws := EditedRaws(RawFields(data, fs), map[]) + AddedRaws([]);
    WrittenReads(its, texts, raws, out);
    var again := IndexFields(out, Span(0, |out|)).value;
    TightTexts(out, again, its, texts, raws);
    assert raws == RawFields(data, fs);
    assert texts + AddedTexts([]) == texts;
  }

  // ----- how deep a replacement may be

  /** An empty array inside n others. */
  ghost function Nested(n: nat): Json {
    if n == 0 then Empty(Array, []) else Full(Array, One(Item([], NoLabel, Nested(n - 1), [])))
  }

  lemma {:induction false} NestedShape(n: nat)
    ensures Wf(Nested(n)) && Levels(Nested(n)) == n + 1 && Deep(Nested(n)) == 2 * n + 1
  {
    if n > 0 { NestedShape(n - 1); }
  }

  lemma NestedText(n: nat)
    requires n < STD_LEVELS
    ensures JsonValid(Text(Nested(n))) && (ShallowValue(Text(Nested(n))) <==> n < 500)
  {
    hide Text, Nested, Levels, Deep, ScanValue, SkipWs, JsonValid, Wf;
    NestedShape(n);
    var b := Text(Nested(n));
    var d := Doc([], Nested(n), []);
    assert b == d.lead + Text(d.v) + d.trail;
    ValidComplete(b, d);
    TextScan(b, d, MAX_DEPTH - 1);
  }

  /** Putting one in the place of any value of any indexed object is a valid edit up to ten
      thousand levels, and leaves an object that indexes again only below 501. */
  lemma DeepReplacement(data: seq<byte>, span: Span, k: nat, n: nat)
    requires IndexFields(data, span).Some? && k < |IndexFields(data, span).value| && n < STD_LEVELS
    ensures var fs := IndexFields(data, span).value;
            var edits := map[fs[k].name := Edit(false, Some(Text(Nested(n))))];
            var out := Rewritten(data, fs, edits, []);
            && EditsValid(fs, edits, [])
            && (IndexFields(out, Span(0, |out|)).Some? <==> n < 500)
  {
    hide IndexFields, Rewritten, Nested, Text, JsonValid, ShallowValue, RawFields, EditedRaws;
    var fs := IndexFields(data, span).value;
    var edits := map[fs[k].name := Edit(false, Some(Text(Nested(n))))];
    NestedText(n);
    assert EditsFit(fs, edits, []) <==> n < 500 by {
      if n >= 500 { assert !ShallowUse(fs[k], edits); }
    }
    RewriteRoundTrip(data, span, edits, []);
  }

  // ----- the limits, in numbers

  /** An array nested in arrays is valid up to ten thousand of them, and can be indexed up to
      five hundred and one. */
  lemma NestedLimits(n: nat)
    ensures var b := Text(Nested(n));
            (JsonValid(b) <==> n < 10000) && (IndexEntries(Array, b, Span(0, |b|)).Some? <==> n <= 500)
  {
    hide Text, Nested, Levels, Deep, ScanValue, SkipWs, JsonValid, Wf, KeysShort, CollEntries, IndexEntries;
    NestedShape(n);
    NestedArray(n);
    var b := Text(Nested(n));
    var d := Doc([], Nested(n), []);
    assert b == d.lead + Text(d.v) + d.trail && b[0..|b|] == b;
    TextScan(b, d, 2 * STD_LEVELS);
    if n < 10000 { ValidComplete(b, d); }
    if JsonValid(b) { ValidShallow(b, d); }
    IndexComplete(Array, b, Span(0, |b|), d);
  }

  lemma NestedArray(n: nat)
    ensures IsColl(Nested(n), Array)
  {
  }

  lemma ValidShallow(b: seq<byte>, d: Doc)
    requires JsonValid(b) && IsText(b, d)
    ensures Deep(d.v) <= 20000
  {
    hide Deep, ScanValue, SkipWs;
    TextScan(b, d, 2 * STD_LEVELS);
  }

  ghost predicate KeysAtMost(items: Items, most: int) {
    && (items.item.name.Label? ==> |items.item.name.key| + 2 <= most)
    && (items.More? ==> KeysAtMost(items.rest, most))
  }

  lemma {:induction false} KeyLimit(items: Items)
    ensures KeysShort(items) <==> KeysAtMost(items, 1048576)
    decreases items
  {
    if items.More? { KeyLimit(items.rest); }
  }

  /** An object is indexed exactly if the counter stays within 1000 from its own bracket on and
      no direct key, with its quotation marks, takes more than 1048576 bytes. */
  lemma ObjectLimits(data: seq<byte>, span: Span, d: Doc)
    requires IsDocument(Object, data, span, d)
    ensures IndexFields(data, span).Some? <==> Deep(d.v) <= 1001 && (d.v.Full? ==> KeysAtMost(d.v.items, 1048576))
  {
    hide Deep, KeysShort, KeysAtMost, IndexEntries, IsDocument;
    KindOfDocument(Object, data, span, d);
    IndexComplete(Object, data, span, d);
    if d.v.Full? { KeyLimit(d.v.items); }
  }

  lemma KindOfDocument(kind: Kind, data: seq<byte>, span: Span, d: Doc)
    requires IsDocument(kind, data, span, d)
    ensures IsColl(d.v, kind)
  {
  }

  /** The rewriter accepts a set of edits exactly if every replacement it uses, and every
      addition, is valid JSON. */
  lemma EditsAccepted(fs: seq<Field>, edits: map<Name, Edit>, adds: seq<Addition>)
    ensures EditsValid(fs, edits, adds) <==>
            && (forall k | 0 <= k < |fs| && fs[k].name in edits ::
                  edits[fs[k].name].delete || edits[fs[k].name].replacement.None? || JsonValid(edits[fs[k].name].replacement.value))
            && (forall k | 0 <= k < |adds| :: JsonValid(adds[k].value))
  {
    hide JsonValid;
  }
}
