/** What the returned spans look like in the source: ordered, disjoint, joined only by
    whitespace and one separator, each value a whole JSON value that can be indexed again. */
module JsonSpans {
  import opened Options
  import opened Bytes
  import opened JsonGrammar
  import opened JsonSound
  import opened JsonComplete
  import opened JsonIndex

  ghost predicate WsRun(s: seq<byte>, a: int, b: int) {
    0 <= a <= b <= |s| && forall k | a <= k < b :: IsWs(s[k])
  }

  /** Between a and b: whitespace, one separator, whitespace. */
  ghost predicate Joined(s: seq<byte>, a: int, b: int, sep: byte) {
    exists c :: WsRun(s, a, c) && c < b <= |s| && s[c] == sep && WsRun(s, c + 1, b)
  }

  /** The span is exactly one value, no deeper than `room`. */
  ghost predicate HoldsValue(s: seq<byte>, span: Span, v: Json, room: int) {
    Wf(v) && Deep(v) <= room && 0 <= span.start && span.end == span.start + Len(v) && Fits(v, s, span.start)
  }

  ghost predicate HoldsKey(s: seq<byte>, span: Span, body: seq<byte>) {
    IsStringBody(body) && 0 <= span.start && span.end == span.start + |body| + 2 && FitsQuoted(body, s, span.start)
  }

  ghost predicate EntryShape(kind: Kind, s: seq<byte>, e: Entry, room: int) {
    && (exists v :: HoldsValue(s, e.value, v, room))
    && (kind.Object? ==> (exists body :: HoldsKey(s, e.key, body)) && Joined(s, e.key.end, e.value.start, COLON))
    && (kind.Array? ==> e.key.start == e.key.end == e.value.start)
  }

  /** The entries of a list of items that starts at i and ends at j. */
  ghost predicate ListShape(kind: Kind, s: seq<byte>, es: seq<Entry>, room: int, i: int, j: int) {
    && |es| > 0
    && (forall k | 0 <= k < |es| :: EntryShape(kind, s, es[k], room))
    && (forall k | 0 <= k < |es| - 1 :: Joined(s, es[k].value.end, es[k + 1].key.start, COMMA))
    && WsRun(s, i, es[0].key.start)
    && WsRun(s, es[|es| - 1].value.end, j)
  }

  lemma AtWs(s: seq<byte>, i: nat, w: seq<byte>)
    requires At(s, i, w) && AllWs(w)
    ensures WsRun(s, i, i + |w|)
  {
    assert forall k | i <= k < i + |w| :: w[k - i] == s[k];
  }

  lemma ItemShape(kind: Kind, s: seq<byte>, i: nat, it: Item, room: int)
    requires WfItem(kind, it) && FitsItem(it, s, i) && Deep(it.value) <= room
    ensures var e := ItemEntry(it, i);
            EntryShape(kind, s, e, room) && WsRun(s, i, e.key.start) && WsRun(s, e.value.end, i + LenItem(it))
  {
    hide At, AllWs, Wf, Fits, Len, Deep, WsRun, IsStringBody, FitsQuoted;
    var e := ItemEntry(it, i);
    assert HoldsValue(s, e.value, it.value, room);
    AtWs(s, i, it.lead);
    AtWs(s, e.value.end, it.trail);
    if kind.Object? {
      assert HoldsKey(s, e.key, it.name.key);
      AtWs(s, e.key.end, it.name.before);
      AtWs(s, e.key.end + |it.name.before| + 1, it.name.after);
      FitsFirst(it.value, s, e.value.start);
    }
  }

  lemma JoinAt(s: seq<byte>, a: int, c: int, b: int, sep: byte)
    requires WsRun(s, a, c) && c < |s| && s[c] == sep && WsRun(s, c + 1, b)
    ensures Joined(s, a, b, sep)
  {
  }

  lemma {:induction false} ItemsShape(kind: Kind, s: seq<byte>, i: nat, items: Items, room: int)
    requires WfItems(kind, items) && FitsItems(items, s, i) && DeepItems(items) <= room
    ensures ListShape(kind, s, Entries(items, i), room, i, i + LenItems(items))
    decreases items
  {
    hide WfItem, FitsItem, LenItem, ItemEntry, Deep, EntryShape, WsRun, Joined;
    ItemShape(kind, s, i, items.item, room);
    if items.More? {
      var j := i + LenItem(items.item);
      ItemsShape(kind, s, j + 1, items.rest, room);
      var tail := Entries(items.rest, j + 1);
      var es := Entries(items, i);
      assert es == [ItemEntry(items.item, i)] + tail;
      JoinAt(s, es[0].value.end, j, tail[0].key.start, COMMA);
      ConsShape(kind, s, es[0], tail, room, i, j + 1, i + LenItems(items));
    }
  }

  lemma ConsShape(kind: Kind, s: seq<byte>, e: Entry, tail: seq<Entry>, room: int, i: int, m: int, j: int)
    requires EntryShape(kind, s, e, room) && WsRun(s, i, e.key.start)
    requires ListShape(kind, s, tail, room, m, j) && Joined(s, e.value.end, tail[0].key.start, COMMA)
    ensures ListShape(kind, s, [e] + tail, room, i, j)
  {
    hide EntryShape, WsRun, Joined;
    var es := [e] + tail;
    assert forall k | 0 < k < |es| :: es[k] == tail[k - 1];
  }

  /** The shape of every successful index: brackets, list, and nothing but whitespace outside. */
  ghost predicate IndexShape(kind: Kind, data: seq<byte>, span: Span, es: seq<Entry>) {
    exists open, close ::
      && WsRun(data, span.start, open) && open < close < |data| && data[open] == Open(kind)
      && data[close] == Close(kind) && WsRun(data, close + 1, span.end)
      && if es == [] then WsRun(data, open + 1, close)
         else ListShape(kind, data, es, MAX_DEPTH - 1, open + 1, close)
  }

  lemma SpanStructure(kind: Kind, data: seq<byte>, span: Span)
    requires IndexEntries(kind, data, span).Some?
    ensures IndexShape(kind, data, span, IndexEntries(kind, data, span).value)
  {
    hide At, AllWs, Text, Len, Fits, FitsItems, LenItems, WfItems, DeepItems, Entries, IndexEntries, KeysShort, WsRun, ListShape;
    var d := IndexSound(kind, data, span);
    var open := span.start + |d.lead|;
    var close := open + Len(d.v) - 1;
    DocInData(kind, data, span, d);
    AtWs(data, span.start, d.lead);
    AtWs(data, open + Len(d.v), d.trail);
    CollShape(kind, data, open, d.v, MAX_DEPTH - 1);
  }

  lemma CollShape(kind: Kind, s: seq<byte>, i: nat, v: Json, room: int)
    requires IsColl(v, kind) && Wf(v) && Fits(v, s, i) && Deep(v) - 2 <= room
    ensures var close := i + Len(v) - 1;
            i < close < |s| && s[i] == Open(kind) && s[close] == Close(kind)
    ensures var close := i + Len(v) - 1; var es := CollEntries(v, i);
            if es == [] then WsRun(s, i + 1, close) else ListShape(kind, s, es, room, i + 1, close)
  {
    hide At, AllWs, WfItems, FitsItems, DeepItems, Entries, LenItems, WsRun;
    if v.Empty? {
      AtWs(s, i + 1, v.gap);
    } else {
      ItemsShape(kind, s, i + 1, v.items, room);
    }
  }

  lemma DocInData(kind: Kind, data: seq<byte>, span: Span, d: Doc)
    requires IsDocument(kind, data, span, d)
    ensures var i := span.start + |d.lead|;
            At(data, span.start, d.lead) && Fits(d.v, data, i) && At(data, i + Len(d.v), d.trail)
    ensures span.start + |d.lead| + Len(d.v) + |d.trail| == span.end
  {
    hide Text, Len, Fits, Wf;
    var t := d.lead + Text(d.v) + d.trail;
    AtSlice(data, span.start, t);
    AtSplit3(data, span.start, d.lead, Text(d.v), d.trail);
    Layout(d.v, data, span.start + |d.lead|);
    TextLen(d.v);
  }

  /** Spans come in source order and do not overlap. */
  lemma SpansOrdered(kind: Kind, s: seq<byte>, es: seq<Entry>, room: int, i: int, j: int, a: nat, b: nat)
    requires ListShape(kind, s, es, room, i, j) && a < b < |es|
    ensures i <= es[a].key.start <= es[a].key.end <= es[a].value.start < es[a].value.end < es[b].key.start <= j
    decreases b - a
  {
    hide Wf, Fits, Deep, FitsQuoted, IsStringBody, Len, WsRun, Joined;
    EntryOrdered(kind, s, es[a], room);
    EntryOrdered(kind, s, es[b], room);
    JoinedOrdered(s, es[b - 1].value.end, es[b].key.start, COMMA);
    EntryOrdered(kind, s, es[b - 1], room);
    if a + 1 < b { SpansOrdered(kind, s, es, room, i, j, a, b - 1); }
    SpansInside(kind, s, es, room, i, j, a);
    SpansInside(kind, s, es, room, i, j, b);
  }

  lemma JoinedOrdered(s: seq<byte>, a: int, b: int, sep: byte)
    requires Joined(s, a, b, sep)
    ensures a < b
  {
  }

  lemma EntryOrdered(kind: Kind, s: seq<byte>, e: Entry, room: int)
    requires EntryShape(kind, s, e, room)
    ensures e.key.start <= e.key.end <= e.value.start < e.value.end
  {
    hide Wf, Fits, Deep, FitsQuoted, IsStringBody, Len, Joined;
    var v :| HoldsValue(s, e.value, v, room);
    FitsFirst(v, s, e.value.start);
    if kind.Object? {
      var body :| HoldsKey(s, e.key, body);
      JoinedOrdered(s, e.key.end, e.value.start, COLON);
    }
  }

  lemma SpansInside(kind: Kind, s: seq<byte>, es: seq<Entry>, room: int, i: int, j: int, a: nat)
    requires ListShape(kind, s, es, room, i, j) && a < |es|
    ensures i <= es[a].key.start && es[a].value.end <= j
  {
    hide EntryShape, Joined;
    FirstLast(kind, s, es, room, i, j, 0, a);
    FirstLast(kind, s, es, room, i, j, a, |es| - 1);
    EntryOrdered(kind, s, es[|es| - 1], room);
  }

  lemma {:induction false} FirstLast(kind: Kind, s: seq<byte>, es: seq<Entry>, room: int, i: int, j: int, a: nat, b: nat)
    requires ListShape(kind, s, es, room, i, j) && a <= b < |es|
    ensures es[a].key.start <= es[b].key.start && es[a].value.end <= es[b].value.end
    decreases b - a
  {
    hide EntryShape, Joined, WsRun;
    if a < b {
      FirstLast(kind, s, es, room, i, j, a, b - 1);
      EntryOrdered(kind, s, es[b - 1], room);
      EntryOrdered(kind, s, es[b], room);
      JoinedOrdered(s, es[b - 1].value.end, es[b].key.start, COMMA);
    }
  }

  /** A value span that is an object or array can be indexed on its own: depth is never
      in the way, and the spans found lie in it. Only the key limit, which was not
      imposed on nested keys, can fail. */
  lemma Reindex(kind: Kind, data: seq<byte>, span: Span, k: nat) returns (v: Json)
    requires IndexEntries(kind, data, span).Some? && k < |IndexEntries(kind, data, span).value|
    ensures var inner := IndexEntries(kind, data, span).value[k].value;
            && HoldsValue(data, inner, v, MAX_DEPTH - 1)
            && (v.Empty? || v.Full? ==>
                  IndexEntries(v.kind, data, inner) ==
                  if v.Full? && v.kind.Object? && !KeysShort(v.items) then None else Some(CollEntries(v, inner.start)))
  {
    hide IndexEntries, CollEntries, KeysShort, WsRun, Joined, HoldsKey, Deep, Wf, Fits, Len, Text;
    SpanStructure(kind, data, span);
    var es := IndexEntries(kind, data, span).value;
    assert EntryShape(kind, data, es[k], MAX_DEPTH - 1);
    var inner := es[k].value;
    v :| HoldsValue(data, inner, v, MAX_DEPTH - 1);
    if v.Empty? || v.Full? {
      AloneIsDocument(data, inner, v);
      IndexComplete(v.kind, data, inner, Doc([], v, []));
    }
  }

  lemma AloneIsDocument(data: seq<byte>, inner: Span, v: Json)
    requires HoldsValue(data, inner, v, MAX_DEPTH - 1) && (v.Empty? || v.Full?)
    ensures IsDocument(v.kind, data, inner, Doc([], v, []))
  {
    hide Wf, Fits, Len, Deep, Text;
    Layout(v, data, inner.start);
    TextLen(v);
    AtSlice(data, inner.start, Text(v));
    assert [] + Text(v) + [] == Text(v);
  }
}
