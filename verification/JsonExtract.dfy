/** The two slice walkers of common/json.go. They index the input without bounds checks,
    on the strength of json.Valid; the proofs here are what makes that safe. */
module JsonExtract {
  import opened Options
  import opened Bytes
  import opened JsonGrammar
  import opened JsonParse
  import opened JsonSound
  import opened JsonComplete
  import opened JsonIndex
  import opened KeyNames
  import opened StdJson
  import opened DelimiterScan

  type Name = seq<byte>

  /** The recursive parser's view of a whole text that json.Valid accepts. */
  function TopEntries(kind: Kind, data: seq<byte>): Option<seq<Entry>> {
    if !JsonValid(data) then None else
    match ScanColl(kind, data, SkipWs(data, 0), 2 * STD_LEVELS - 1)
    case None => None
    case Some(c) => Some(c.entries)
  }

  /** The name of a key as this file reads it: raw bytes unless there is an escape. */
  function KeyName(body: seq<byte>): Name {
    if BACKSLASH in body then DecodeBody(body) else body
  }

  function EntryName(data: seq<byte>, e: Entry): Name {
    var quoted := Cut(data, e.key);
    if |quoted| < 2 then [] else KeyName(quoted[1..|quoted| - 1])
  }

  /** For each wanted name, the raw value of its last occurrence. */
  function LastValues(data: seq<byte>, es: seq<Entry>, wanted: set<Name>): map<Name, seq<byte>> {
    if es == [] then map[]
    else
      var e := es[|es| - 1];
      var before := LastValues(data, es[..|es| - 1], wanted);
      if EntryName(data, e) in wanted then before[EntryName(data, e) := Cut(data, e.value)] else before
  }

  /** The values visited: in order, up to and including the first that stops the visit. */
  function Visited(data: seq<byte>, es: seq<Entry>, visit: seq<byte> -> bool): seq<seq<byte>> {
    if es == [] then []
    else
      var v := Cut(data, es[0].value);
      [v] + if visit(v) then Visited(data, es[1..], visit) else []
  }

  // ----- bytes.TrimSpace, on bytes below 0x80

  predicate IsSpace(b: byte) { 0x09 <= b <= 0x0D || b == 0x20 }

  function TrimSpace(b: seq<byte>): seq<byte> {
    if b == [] then []
    else if IsSpace(b[0]) then TrimSpace(b[1..])
    else if IsSpace(b[|b| - 1]) then TrimSpace(b[..|b| - 1])
    else b
  }

  ghost predicate Spaces(w: seq<byte>) { forall k | 0 <= k < |w| :: w[k] in {0x09, 0x0A, 0x0B, 0x0C, 0x0D, 0x20} }

  lemma {:induction false} TrimLeading(w: seq<byte>, s: seq<byte>)
    requires Spaces(w)
    ensures TrimSpace(w + s) == TrimSpace(s)
    decreases |w|
  {
    if w == [] {
      assert w + s == s;
    } else {
      assert IsSpace(w[0]) && (w + s)[0] == w[0] && (w + s)[1..] == w[1..] + s;
      TrimLeading(w[1..], s);
    }
  }

  lemma {:induction false} TrimTrailing(b: seq<byte>, t: seq<byte>)
    requires Spaces(t) && b != [] && !IsSpace(b[0]) && !IsSpace(b[|b| - 1])
    ensures TrimSpace(b + t) == b
    decreases |t|
  {
    if t == [] {
      assert b + t == b;
    } else {
      var n := |b + t| - 1;
      assert IsSpace(t[|t| - 1]) && (b + t)[n] == t[|t| - 1] && (b + t)[0] == b[0];
      assert (b + t)[..n] == b + t[..|t| - 1];
      TrimTrailing(b, t[..|t| - 1]);
    }
  }

  /** Trimming takes the white space from both ends, and nothing else. */
  lemma TrimMeaning(w: seq<byte>, b: seq<byte>, t: seq<byte>)
    requires Spaces(w) && Spaces(t)
    requires b == [] || (!Spaces(b[..1]) && !Spaces(b[|b| - 1..]))
    ensures TrimSpace(w + b + t) == b
  {
    hide TrimSpace;
    assert w + b + t == w + (b + t);
    TrimLeading(w, b + t);
    if b == [] { TrimNothing(t); } else { TrimTrailing(b, t); }
  }

  lemma TrimNothing(t: seq<byte>)
    requires Spaces(t)
    ensures TrimSpace([] + t) == []
  {
    hide IsSpace;
    assert [] + t == t && t + [] == t;
    TrimLeading(t, []);
  }

  /** A value has no space at its ends. */
  lemma NoSpaceAround(v: Json)
    requires Wf(v)
    ensures TrimSpace(Text(v)) == Text(v)
  {
    hide WfItems, ItemsText, AllWs, WfNumber, NumberText, IsStringBody;
    FirstByte(v);
    if v.Num? { NumberBytes(v.num); }
  }

  // ----- one item, as the walkers see it

  lemma MemberScan(data: seq<byte>, i: nat, it: Item)
    requires WfItem(Object, it) && FitsItem(it, data, i)
    requires var e := i + LenItem(it); e < |data| && (data[e] == COMMA || data[e] == RBRACE)
    ensures var k := i + |it.lead|; var e := k + |it.name.key| + 2; var v := k + LenLabel(it.name);
            && it.name.Label?
            && SkipWs(data, i) == k < |data| && data[k] != RBRACE
            && StringEnd(data, k) == Some(e) && At(data, k + 1, it.name.key)
            && SkipWs(data, e) < |data| && data[SkipWs(data, e)] == COLON
            && SkipWs(data, SkipWs(data, e) + 1) == v
            && ValueEnd(data, v) == Some(v + Len(it.value))
            && SkipWs(data, v + Len(it.value)) == i + LenItem(it)
  {
    hide At, AllWs, Wf, Fits, Len, IsStringBody, StringEnd, ValueEnd, SkipWs, FitsLabel, LenLabel;
    ItemStart(Object, data, i, it);
    var k := i + |it.lead|;
    FitsFirst(it.value, data, k + LenLabel(it.name));
    KeyComplete(data, k, it.name);
    LabelKey(data, k, it.name);
    ItemEnds(Object, data, i, it);
    ValueEndAgrees(it.value, data, k + LenLabel(it.name));
  }

  lemma LabelKey(data: seq<byte>, k: nat, l: Label)
    requires l.Label? && WfLabel(Object, l) && FitsLabel(l, data, k)
    ensures StringEnd(data, k) == Some(k + |l.key| + 2) && At(data, k + 1, l.key)
  {
    hide At, AllWs, IsStringBody, StringEnd;
    QuotedEnd(data, k, l.key);
  }

  lemma ElementScan(data: seq<byte>, i: nat, it: Item)
    requires WfItem(Array, it) && FitsItem(it, data, i)
    requires var e := i + LenItem(it); e < |data| && (data[e] == COMMA || data[e] == RBRACKET)
    ensures var v := i + |it.lead|;
            && SkipWs(data, i) == v < |data| && data[v] != RBRACKET
            && ValueEnd(data, v) == Some(v + Len(it.value))
            && SkipWs(data, v + Len(it.value)) == i + LenItem(it)
            && ItemEntry(it, i).value == Span(v, v + Len(it.value))
  {
    hide At, AllWs, Wf, Fits, Len, ValueEnd, SkipWs;
    ItemStart(Array, data, i, it);
    ItemEnds(Array, data, i, it);
    ValueEndAgrees(it.value, data, i + |it.lead|);
  }

  /** The slice a walker hands out is the value the parser found. */
  lemma ValueSlice(data: seq<byte>, v: Json, i: nat)
    requires Wf(v) && Fits(v, data, i)
    ensures i + Len(v) <= |data| && TrimSpace(data[i..i + Len(v)]) == Cut(data, Span(i, i + Len(v)))
  {
    hide Wf, Fits, Text, Len, TrimSpace;
    Layout(v, data, i);
    TextLen(v);
    AtSlice(data, i, Text(v));
    NoSpaceAround(v);
  }

  lemma NameSlice(data: seq<byte>, i: nat, it: Item)
    requires WfItem(Object, it) && FitsItem(it, data, i)
    ensures EntryName(data, ItemEntry(it, i)) == KeyName(it.name.key)
  {
    hide AllWs, Wf, Fits, Len, IsStringBody, KeyName, At;
    var k := i + |it.lead|;
    QuotedLayout(it.name.key, data, k);
    AtSlice(data, k, Quoted(it.name.key));
    assert Quoted(it.name.key)[1..|it.name.key| + 1] == it.name.key;
  }

  lemma LastSnoc(data: seq<byte>, es: seq<Entry>, e: Entry, wanted: set<Name>)
    ensures LastValues(data, es + [e], wanted) ==
            if EntryName(data, e) in wanted then LastValues(data, es, wanted)[EntryName(data, e) := Cut(data, e.value)]
            else LastValues(data, es, wanted)
  {
    assert (es + [e])[..|es|] == es;
  }

  /** A valid text that opens with this kind's bracket is a container of that kind. */
  lemma TopDocument(kind: Kind, data: seq<byte>) returns (d: Doc)
    requires JsonValid(data)
    ensures IsText(data, d) && Levels(d.v) <= STD_LEVELS && SkipWs(data, 0) == |d.lead| < |data|
    ensures Fits(d.v, data, |d.lead|)
    ensures IsColl(d.v, kind) <==> data[|d.lead|] == Open(kind)
    ensures TopEntries(kind, data) == if IsColl(d.v, kind) then Some(CollEntries(d.v, |d.lead|)) else None
  {
    hide Wf, Fits, Text, Len, Deep, Levels, JsonValid, CollEntries, ScanValue;
    d := ValidSound(data);
    TextScan(data, d, 2 * STD_LEVELS);
    TextLayout(data, d);
    FitsFirst(d.v, data, |d.lead|);
    FirstIsOpen(kind, d.v, data[|d.lead|]);
    DeepIsTwicePerLevel(d.v);
    if IsColl(d.v, kind) { CollComplete(kind, data, |d.lead|, d.v, 2 * STD_LEVELS - 1); }
  }

  lemma FirstIsOpen(kind: Kind, v: Json, b: byte)
    requires StartsValue(v, b) && Wf(v)
    ensures b == Open(kind) <==> IsColl(v, kind)
  {
    hide WfItems, WfNumber, IsStringBody, AllWs;
  }

  // ----- the walkers

  /** Where a walk stands: before the items still to come, or before the closing bracket. */
  ghost predicate Stands(kind: Kind, data: seq<byte>, i: nat, rest: Option<Items>) {
    match rest
    case None => SkipWs(data, i) < |data| && data[SkipWs(data, i)] == Close(kind)
    case Some(items) =>
      var e := i + LenItems(items);
      WfItems(kind, items) && FitsItems(items, data, i) && e < |data| && data[e] == Close(kind)
  }

  ghost function RestEntries(rest: Option<Items>, i: nat): seq<Entry> {
    match rest case None => [] case Some(items) => Entries(items, i)
  }

  lemma StandsAtStart(kind: Kind, data: seq<byte>, v: Json, i: nat)
    requires IsColl(v, kind) && Wf(v) && Fits(v, data, i)
    ensures var rest := if v.Empty? then None else Some(v.items);
            Stands(kind, data, i + 1, rest) && RestEntries(rest, i + 1) == CollEntries(v, i)
  {
    hide At, AllWs, WfItems, FitsItems, LenItems, Entries;
    if v.Empty? { WsSkipped(data, i + 1, v.gap); }
  }

  /** The first item of the rest, and what is left after it. */
  lemma StandsStep(kind: Kind, data: seq<byte>, i: nat, items: Items)
    requires Stands(kind, data, i, Some(items))
    ensures var it := items.item; var j := i + LenItem(it);
            && WfItem(kind, it) && FitsItem(it, data, i) && j < |data|
            && Entries(items, i) == [ItemEntry(it, i)] + (if items.More? then Entries(items.rest, j + 1) else [])
            && (items.One? ==> data[j] == Close(kind))
            && (items.More? ==> data[j] == COMMA && Stands(kind, data, j + 1, Some(items.rest)))
  {
    hide WfItem, FitsItem, LenItem, ItemEntry, At, SkipWs;
    match items
    case One(it) =>
      assert Entries(items, i) == [ItemEntry(it, i)] + [];
    case More(it, rest) =>
      hide Entries, FitsItems, WfItems, LenItems;
      MoreParts(kind, data, i, items);
  }

  lemma MoreParts(kind: Kind, data: seq<byte>, i: nat, items: Items)
    requires items.More? && WfItems(kind, items) && FitsItems(items, data, i)
    ensures var it, rest := items.item, items.rest; var j := i + LenItem(it);
            && WfItem(kind, it) && FitsItem(it, data, i) && j < |data| && data[j] == COMMA
            && WfItems(kind, rest) && FitsItems(rest, data, j + 1) && i + LenItems(items) == j + 1 + LenItems(rest)
            && Entries(items, i) == [ItemEntry(it, i)] + Entries(rest, j + 1)
  {
    hide WfItem, FitsItem, LenItem, ItemEntry;
  }

  /** A member from its key to the separator after it. */
  method WalkMember(data: seq<byte>, ghost i: nat, keyStart: nat, ghost it: Item) returns (r: Option<(Name, seq<byte>, nat)>)
    requires WfItem(Object, it) && FitsItem(it, data, i) && keyStart == SkipWs(data, i)
    requires var e := i + LenItem(it); e < |data| && (data[e] == COMMA || data[e] == RBRACE)
    ensures r == Some((EntryName(data, ItemEntry(it, i)), Cut(data, ItemEntry(it, i).value), i + LenItem(it)))
  {
    hide Wf, Fits, Len, LenLabel, FitsLabel, StringEnd, ValueEnd, SkipWs, KeyName, EntryName, TrimSpace, AllWs, At, Cut, LenItem, IsStringBody;
    MemberScan(data, i, it);
    NameSlice(data, i, it);
    ValueSlice(data, it.value, i + |it.lead| + LenLabel(it.name));
    var keyEnd := ScanJSONStringEnd(data, keyStart);
    if keyEnd.None? { return None; }
    var body := data[keyStart + 1..keyEnd.value - 1];
    AtSlice(data, keyStart + 1, it.name.key);
    var key := KeyName(body);
    var c := SkipJSONWhitespace(data, keyEnd.value);
    if c >= |data| || data[c] != COLON { return None; }
    var valueStart := SkipJSONWhitespace(data, c + 1);
    var valueEnd := ScanJSONValueEnd(data, valueStart);
    if valueEnd.None? { return None; }
    var value := TrimSpace(data[valueStart..valueEnd.value]);
    var next := SkipJSONWhitespace(data, valueEnd.value);
    return Some((key, value, next));
  }

  method ExtractTopLevelJSONFields(data: seq<byte>, fieldNames: seq<Name>) returns (r: Option<map<Name, seq<byte>>>)
    ensures r == match TopEntries(Object, data)
                 case None => None
                 case Some(es) => Some(LastValues(data, es, set n | n in fieldNames))
  {
    hide JsonValid, Wf, WfItem, WfItems, Fits, FitsItem, FitsItems, Entries, LenItem, LenItems, ItemEntry, CollEntries, SkipWs, Cut, EntryName, LastValues, Stands, Levels, IsText, Gathered;
    if !JsonValid(data) { return None; }
    var wanted := set n | n in fieldNames;
    ghost var d := TopDocument(Object, data);
    var i := SkipJSONWhitespace(data, 0);
    if i >= |data| || data[i] != LBRACE { return None; }
    WfOfText(data, d);
    StandsAtStart(Object, data, d.v, i);
    ghost var es := CollEntries(d.v, i);
    ghost var rest := if d.v.Empty? then None else Some(d.v.items);
    ghost var done: seq<Entry> := [];
    var result: map<Name, seq<byte>> := map[];
    NoneGathered(data, es, wanted);
    i := i + 1;
    while true
      invariant Stands(Object, data, i, rest) && Gathered(result, data, done, RestEntries(rest, i), es, wanted)
      decreases |data| - i
    {
      WalkStart(Object, data, i, rest);
      ghost var at := i;
      i := SkipJSONWhitespace(data, i);
      if data[i] == RBRACE {
        AllGathered(result, data, done, es, wanted);
        return Some(result);
      }
      var member := TakeMember(data, at, i, rest.value, result, done, es, wanted);
      if member.None? { return None; }
      var (key, value, next) := member.value;
      done := done + [ItemEntry(rest.value.item, at)];
      if key in wanted { result := result[key := value]; }
      i := next;
      if data[i] == RBRACE {
        AllGathered(result, data, done, es, wanted);
        return Some(result);
      }
      if data[i] != COMMA { return None; }
      rest := Some(rest.value.rest);
      i := i + 1;
    }
  }

  /** One member of the object, and what is then still to be gathered. */
  method TakeMember(data: seq<byte>, ghost at: nat, keyStart: nat, ghost items: Items, ghost result: map<Name, seq<byte>>,
                    ghost done: seq<Entry>, ghost es: seq<Entry>, ghost wanted: set<Name>) returns (r: Option<(Name, seq<byte>, nat)>)
    requires Stands(Object, data, at, Some(items)) && keyStart == SkipWs(data, at)
    requires Gathered(result, data, done, Entries(items, at), es, wanted)
    ensures r.Some?
    ensures var (key, value, next) := r.value;
            var done' := done + [ItemEntry(items.item, at)];
            var result' := if key in wanted then result[key := value] else result;
            && at <= next < |data|
            && (items.One? ==> data[next] == RBRACE && Gathered(result', data, done', [], es, wanted))
            && (items.More? ==>
                  data[next] == COMMA && Stands(Object, data, next + 1, Some(items.rest)) &&
                  Gathered(result', data, done', Entries(items.rest, next + 1), es, wanted))
  {
    hide JsonValid, Wf, WfItem, WfItems, Fits, FitsItem, FitsItems, Entries, LenItem, LenItems, ItemEntry, SkipWs, Cut, EntryName, LastValues, Stands, Gathered;
    StandsStep(Object, data, at, items);
    r := WalkMember(data, at, keyStart, items.item);
    var (_, _, next) := r.value;
    GatheredStep(result, data, done, ItemEntry(items.item, at), if items.More? then Entries(items.rest, next + 1) else [], es, wanted);
  }

  /** What was gathered from some entries, the others being still to come. */
  ghost predicate Gathered(result: map<Name, seq<byte>>, data: seq<byte>, done: seq<Entry>, rest: seq<Entry>, es: seq<Entry>, wanted: set<Name>) {
    done + rest == es && result == LastValues(data, done, wanted)
  }

  lemma NoneGathered(data: seq<byte>, es: seq<Entry>, wanted: set<Name>)
    ensures Gathered(map[], data, [], es, es, wanted)
  {
    assert [] + es == es;
  }

  lemma AllGathered(result: map<Name, seq<byte>>, data: seq<byte>, done: seq<Entry>, es: seq<Entry>, wanted: set<Name>)
    ensures Gathered(result, data, done, [], es, wanted) ==> result == LastValues(data, es, wanted)
  {
    hide LastValues;
    assert done + [] == done;
  }

  lemma GatheredStep(result: map<Name, seq<byte>>, data: seq<byte>, done: seq<Entry>, e: Entry, tail: seq<Entry>, es: seq<Entry>, wanted: set<Name>)
    requires Gathered(result, data, done, [e] + tail, es, wanted)
    ensures var name := EntryName(data, e);
            Gathered(if name in wanted then result[name := Cut(data, e.value)] else result, data, done + [e], tail, es, wanted)
  {
    hide LastValues, EntryName, Cut;
    LastSnoc(data, done, e, wanted);
    MoveEntry(done, e, tail);
  }

  lemma MoveEntry(done: seq<Entry>, e: Entry, tail: seq<Entry>)
    ensures done + ([e] + tail) == (done + [e]) + tail
  {
  }

  lemma WfOfText(data: seq<byte>, d: Doc)
    requires IsText(data, d)
    ensures Wf(d.v)
  {
  }

  lemma WalkStart(kind: Kind, data: seq<byte>, i: nat, rest: Option<Items>)
    requires Stands(kind, data, i, rest)
    ensures i <= SkipWs(data, i) < |data| && (rest.None? <==> data[SkipWs(data, i)] == Close(kind))
  {
    hide WfItem, FitsItem, At;
    if rest.Some? { FirstItem(kind, data, i, rest.value); }
  }

  method ForEachJSONArrayValue(data: seq<byte>, visit: seq<byte> -> bool) returns (r: Option<seq<seq<byte>>>)
    ensures r == match TopEntries(Array, data)
                 case None => None
                 case Some(es) => Some(Visited(data, es, visit))
  {
    hide JsonValid, Wf, WfItem, WfItems, Fits, FitsItem, FitsItems, Entries, LenItem, LenItems, ItemEntry, CollEntries, SkipWs, Cut, Stands, Levels, IsText, Visited, Len, ValueEnd, TrimSpace, Sofar;
    if !JsonValid(data) { return None; }
    ghost var d := TopDocument(Array, data);
    var i := SkipJSONWhitespace(data, 0);
    if i >= |data| || data[i] != LBRACKET { return None; }
    WfOfText(data, d);
    StandsAtStart(Array, data, d.v, i);
    ghost var all := Visited(data, CollEntries(d.v, i), visit);
    SofarStart(data, CollEntries(d.v, i), visit);
    ghost var rest := if d.v.Empty? then None else Some(d.v.items);
    var seen: seq<seq<byte>> := [];
    i := i + 1;
    while true
      invariant Stands(Array, data, i, rest) && Sofar(seen, data, RestEntries(rest, i), visit, all)
      decreases |data| - i
    {
      WalkStart(Array, data, i, rest);
      ghost var at := i;
      i := SkipJSONWhitespace(data, i);
      if data[i] == RBRACKET {
        SofarEnd(seen, data, visit, all);
        return Some(seen);
      }
      var element := TakeElement(data, at, i, rest.value, visit, seen, all);
      if element.None? { return None; }
      var (value, next) := element.value;
      seen := seen + [value];
      if !visit(value) { return Some(seen); }
      i := next;
      if data[i] == RBRACKET {
        SofarEnd(seen, data, visit, all);
        return Some(seen);
      }
      if data[i] != COMMA { return None; }
      rest := Some(rest.value.rest);
      i := i + 1;
    }
  }

  /** One element of the array, and what is then still to be visited. */
  method TakeElement(data: seq<byte>, ghost at: nat, start: nat, ghost items: Items, visit: seq<byte> -> bool,
                     ghost seen: seq<seq<byte>>, ghost all: seq<seq<byte>>) returns (r: Option<(seq<byte>, nat)>)
    requires Stands(Array, data, at, Some(items)) && start == SkipWs(data, at) && Sofar(seen, data, Entries(items, at), visit, all)
    ensures r.Some?
    ensures var (value, next) := r.value;
            && at <= next < |data|
            && (!visit(value) ==> seen + [value] == all)
            && (visit(value) && items.One? ==> data[next] == RBRACKET && Sofar(seen + [value], data, [], visit, all))
            && (visit(value) && items.More? ==>
                  data[next] == COMMA && Stands(Array, data, next + 1, Some(items.rest)) &&
                  Sofar(seen + [value], data, Entries(items.rest, next + 1), visit, all))
  {
    hide JsonValid, Wf, WfItem, WfItems, Fits, FitsItem, FitsItems, Entries, LenItem, LenItems, ItemEntry, SkipWs, Cut, Stands, Visited, Len, ValueEnd, TrimSpace, Sofar;
    StandsStep(Array, data, at, items);
    r := WalkElement(data, at, start, items.item);
    var (_, next) := r.value;
    SofarStep(seen, data, items.item, at, if items.More? then Entries(items.rest, next + 1) else [], visit, all);
  }

  /** What was visited, with what is still to be, is everything. */
  ghost predicate Sofar(seen: seq<seq<byte>>, data: seq<byte>, es: seq<Entry>, visit: seq<byte> -> bool, all: seq<seq<byte>>) {
    seen + Visited(data, es, visit) == all
  }

  lemma SofarStart(data: seq<byte>, es: seq<Entry>, visit: seq<byte> -> bool)
    ensures Sofar([], data, es, visit, Visited(data, es, visit))
  {
    hide Visited;
    assert [] + Visited(data, es, visit) == Visited(data, es, visit);
  }

  lemma SofarEnd(seen: seq<seq<byte>>, data: seq<byte>, visit: seq<byte> -> bool, all: seq<seq<byte>>)
    ensures Sofar(seen, data, [], visit, all) ==> seen == all
  {
    assert seen + [] == seen;
  }

  lemma SofarStep(seen: seq<seq<byte>>, data: seq<byte>, it: Item, i: nat, tail: seq<Entry>, visit: seq<byte> -> bool, all: seq<seq<byte>>)
    requires Sofar(seen, data, [ItemEntry(it, i)] + tail, visit, all)
    ensures var v := Cut(data, ItemEntry(it, i).value);
            if visit(v) then Sofar(seen + [v], data, tail, visit, all) else seen + [v] == all
  {
    hide Cut, ItemEntry, Visited;
    var v := Cut(data, ItemEntry(it, i).value);
    VisitStep(data, it, i, tail, visit);
    var more := if visit(v) then Visited(data, tail, visit) else [];
    assert seen + ([v] + more) == (seen + [v]) + more;
    assert (seen + [v]) + [] == seen + [v];
  }

  lemma VisitStep(data: seq<byte>, it: Item, i: nat, tail: seq<Entry>, visit: seq<byte> -> bool)
    ensures var v := Cut(data, ItemEntry(it, i).value);
            Visited(data, [ItemEntry(it, i)] + tail, visit) == [v] + (if visit(v) then Visited(data, tail, visit) else [])
  {
    hide Cut, ItemEntry;
    assert ([ItemEntry(it, i)] + tail)[1..] == tail;
  }

  method WalkElement(data: seq<byte>, ghost i: nat, start: nat, ghost it: Item) returns (r: Option<(seq<byte>, nat)>)
    requires WfItem(Array, it) && FitsItem(it, data, i) && start == SkipWs(data, i)
    requires var e := i + LenItem(it); e < |data| && (data[e] == COMMA || data[e] == RBRACKET)
    ensures r == Some((Cut(data, ItemEntry(it, i).value), i + LenItem(it)))
  {
    hide Wf, Fits, Len, LenItem, ItemEntry, ValueEnd, SkipWs, TrimSpace, AllWs, Cut;
    ElementScan(data, i, it);
    ElementParts(it, data, i);
    ValueSlice(data, it.value, start);
    var end := ScanJSONValueEnd(data, start);
    if end.None? { return None; }
    var value := TrimSpace(data[start..end.value]);
    var next := SkipJSONWhitespace(data, end.value);
    return Some((value, next));
  }

  lemma ElementParts(it: Item, data: seq<byte>, i: nat)
    requires WfItem(Array, it) && FitsItem(it, data, i)
    ensures Wf(it.value) && Fits(it.value, data, i + |it.lead|)
  {
    hide Wf, Fits, At, AllWs, Len;
  }

  // ----- agreement with the indexer

  /** Whatever the indexer accepts, json.Valid accepts, and the walkers see the same entries. */
  lemma WalkersSeeIndex(kind: Kind, data: seq<byte>)
    requires IndexEntries(kind, data, Span(0, |data|)).Some?
    ensures TopEntries(kind, data) == IndexEntries(kind, data, Span(0, |data|))
  {
    hide Wf, Fits, Text, Len, Deep, Levels, JsonValid, CollEntries, ScanColl, KeysShort, IndexEntries, SkipWs, AllWs, At;
    var d := IndexSound(kind, data, Span(0, |data|));
    assert data[0..|data|] == data;
    DeepIsTwicePerLevel(d.v);
    ValidComplete(data, d);
    TextScan(data, d, 0);
    TextLayout(data, d);
    CollComplete(kind, data, |d.lead|, d.v, 2 * STD_LEVELS - 1);
  }

  /** Exactly when this file and the decoder read a key alike: escapes, or well-formed UTF-8. */
  lemma KeyNamesAgree(body: seq<byte>)
    ensures KeyName(body) == DecodeBody(body) <==> BACKSLASH in body || IsUtf8(body)
  {
    hide DecodeBody, IsUtf8;
    if BACKSLASH !in body { PlainKey(body); }
  }

  /** A key of one byte that no UTF-8 text holds: kept here, repaired by the decoder. */
  lemma BrokenKeyReadsApart()
    ensures KeyName([0xFF]) == [0xFF] && DecodeBody([0xFF]) == Repaired([0xFF]) != [0xFF]
  {
    var body: seq<byte> := [0xFF];
    assert BACKSLASH !in body;
    assert Broken(DecodeRune(body));
    hide DecodeBody, Repaired;
    KeyNamesAgree(body);
    PlainKeyRepaired(body);
  }

  ghost predicate KeysReadAlike(data: seq<byte>, fs: seq<Field>) {
    forall k | 0 <= k < |fs| ::
      var q := Cut(data, fs[k].key); |q| >= 2 && (BACKSLASH in q[1..|q| - 1] || IsUtf8(q[1..|q| - 1]))
  }

  /** The last field of that name is the one at k. */
  ghost predicate LastAt(fs: seq<Field>, k: int, name: Name) {
    0 <= k < |fs| && fs[k].name == name && forall j | k < j < |fs| :: fs[j].name != name
  }

  lemma LastAtPrefix(fs: seq<Field>, k: int, name: Name)
    requires fs != []
    ensures var n := |fs| - 1;
            LastAt(fs, k, name) <==> if fs[n].name == name then k == n else LastAt(fs[..n], k, name)
  {
    var n := |fs| - 1;
    assert forall j | 0 <= j < n :: fs[..n][j] == fs[j];
  }

  lemma {:induction false} LastValueMeaning(data: seq<byte>, es: seq<Entry>, fs: seq<Field>, wanted: set<Name>, name: Name)
    requires |es| == |fs|
    requires forall k | 0 <= k < |es| :: EntryName(data, es[k]) == fs[k].name && es[k].value == fs[k].value
    ensures name in LastValues(data, es, wanted) <==> name in wanted && exists k :: LastAt(fs, k, name)
    ensures forall k | LastAt(fs, k, name) && name in wanted :: LastValues(data, es, wanted)[name] == Cut(data, fs[k].value)
    decreases |es|
  {
    hide EntryName, Cut;
    if es == [] {
      NoLast(fs, name);
    } else {
      var n := |es| - 1;
      LastValueMeaning(data, es[..n], fs[..n], wanted, name);
      if fs[n].name == name {
        forall k ensures LastAt(fs, k, name) <==> k == n { LastAtPrefix(fs, k, name); }
        assert LastAt(fs, n, name);
      } else {
        forall k ensures LastAt(fs, k, name) <==> LastAt(fs[..n], k, name) { LastAtPrefix(fs, k, name); }
      }
    }
  }

  lemma NoLast(fs: seq<Field>, name: Name)
    requires fs == []
    ensures forall k :: !LastAt(fs, k, name)
  {
  }

  /** What is extracted from a body the indexer accepts: each wanted name that occurs, with
      the raw bytes of its last occurrence, as the index has them. */
  lemma ExtractAgrees(data: seq<byte>, wanted: set<Name>, name: Name)
    requires IndexFields(data, Span(0, |data|)).Some?
    requires KeysReadAlike(data, IndexFields(data, Span(0, |data|)).value)
    ensures var fs := IndexFields(data, Span(0, |data|)).value;
            TopEntries(Object, data).Some? &&
            var m := LastValues(data, TopEntries(Object, data).value, wanted);
            && (name in m <==> name in wanted && exists k :: LastAt(fs, k, name))
            && (forall k | LastAt(fs, k, name) && name in wanted :: m[name] == Cut(data, fs[k].value))
  {
    hide TopEntries, IndexEntries, KeyName, DecodeBody, IsUtf8, Cut, LastValues, LastAt;
    WalkersSeeIndex(Object, data);
    var es := TopEntries(Object, data).value;
    var fs := IndexFields(data, Span(0, |data|)).value;
    forall k | 0 <= k < |es| ensures EntryName(data, es[k]) == fs[k].name && es[k].value == fs[k].value {
      var q := Cut(data, fs[k].key);
      KeyNamesAgree(q[1..|q| - 1]);
    }
    LastValueMeaning(data, es, fs, wanted, name);
  }

  /** With a visitor that never stops, exactly the elements of the index, in order. */
  lemma {:induction false} VisitedAll(data: seq<byte>, es: seq<Entry>)
    ensures var seen := Visited(data, es, v => true);
            |seen| == |es| && forall k | 0 <= k < |es| :: seen[k] == Cut(data, Values(es)[k])
    decreases |es|
  {
    hide Cut;
    if es != [] { VisitedAll(data, es[1..]); }
  }

  // ----- what the walkers see, on any input

  /** The entries are those of the text's tree, if it is a valid container of the kind. */
  lemma TopExact(kind: Kind, data: seq<byte>, d: Doc)
    requires IsText(data, d)
    ensures TopEntries(kind, data) == if Levels(d.v) <= 10000 && IsColl(d.v, kind) then Some(CollEntries(d.v, |d.lead|)) else None
  {
    hide Wf, Fits, Text, Len, Deep, Levels, CollEntries, ScanValue, SkipWs;
    DeepIsTwicePerLevel(d.v);
    TextScan(data, d, 2 * STD_LEVELS);
    if Levels(d.v) <= 10000 {
      SameTree(kind, data, d);
    }
  }

  lemma SameTree(kind: Kind, data: seq<byte>, d: Doc)
    requires IsText(data, d) && Levels(d.v) <= STD_LEVELS
    ensures JsonValid(data)
    ensures TopEntries(kind, data) == if IsColl(d.v, kind) then Some(CollEntries(d.v, |d.lead|)) else None
  {
    hide Wf, Fits, Text, Len, Deep, Levels, JsonValid, CollEntries, ScanValue;
    ValidComplete(data, d);
    TextScan(data, d, 2 * STD_LEVELS);
    TextLayout(data, d);
    FitsFirst(d.v, data, |d.lead|);
    FirstIsOpen(kind, d.v, data[|d.lead|]);
    DeepIsTwicePerLevel(d.v);
    if IsColl(d.v, kind) { CollComplete(kind, data, |d.lead|, d.v, 2 * STD_LEVELS - 1); }
  }

  /** No entries where there is no JSON text. */
  lemma TopRefused(kind: Kind, data: seq<byte>)
    ensures TopEntries(kind, data).Some? ==> exists d :: IsText(data, d)
  {
    if TopEntries(kind, data).Some? {
      var d := ValidSound(data);
    }
  }

  /** A visit goes over the values in order, up to the first that stops it. */
  lemma {:induction false} VisitedMeaning(data: seq<byte>, es: seq<Entry>, visit: seq<byte> -> bool)
    ensures var seen := Visited(data, es, visit);
            && |seen| <= |es| && (forall k | 0 <= k < |seen| :: seen[k] == Cut(data, es[k].value))
            && (forall k | 0 <= k < |seen| - 1 :: visit(seen[k]))
            && (|seen| < |es| ==> seen != [] && !visit(seen[|seen| - 1]))
    decreases |es|
  {
    hide Cut;
    if es != [] {
      VisitedMeaning(data, es[1..], visit);
      var tail := Visited(data, es[1..], visit);
      assert forall k | 0 <= k < |es| - 1 :: es[1..][k] == es[k + 1];
    }
  }
}
