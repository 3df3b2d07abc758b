/** The JSON grammar of RFC 8259, sections 2 to 7, as concrete syntax trees that
    keep every byte: `Text` prints a tree, and a byte string is JSON exactly when
    some well-formed tree prints to it. */
module JsonGrammar {
  import opened Bytes

  datatype Kind = Object | Array

  function Open(kind: Kind): byte { if kind.Object? then LBRACE else LBRACKET }
  function Close(kind: Kind): byte { if kind.Object? then RBRACE else RBRACKET }

  /** number = [ minus ] int [ frac ] [ exp ] (section 6); frac and exp are empty when absent. */
  datatype Number = Number(neg: bool, whole: seq<byte>, frac: seq<byte>, exp: seq<byte>)

  /** What an object member has before its value and an array element has not. */
  datatype Label = NoLabel | Label(key: seq<byte>, before: seq<byte>, after: seq<byte>)

  datatype Item = Item(lead: seq<byte>, name: Label, value: Json, trail: seq<byte>)

  datatype Items = One(item: Item) | More(item: Item, rest: Items)

  datatype Json =
    | Str(body: seq<byte>)
    | Num(num: Number)
    | Word(word: seq<byte>)
    | Empty(kind: Kind, gap: seq<byte>)
    | Full(kind: Kind, items: Items)

  // ----- well-formedness

  /** The inside of a string (section 7), as bytes: no UTF-8 requirement. */
  ghost predicate IsStringBody(b: seq<byte>) {
    b == [] ||
    if b[0] == BACKSLASH then
      || (|b| >= 2 && IsShortEscape(b[1]) && IsStringBody(b[2..]))
      || (|b| >= 6 && b[1] == SMALL_U && IsHex(b[2]) && IsHex(b[3]) && IsHex(b[4]) && IsHex(b[5]) && IsStringBody(b[6..]))
    else
      b[0] >= 0x20 && b[0] != QUOTE && IsStringBody(b[1..])
  }

  ghost predicate IsIntText(t: seq<byte>) {
    t != [] && AllDigits(t) && (|t| == 1 || t[0] != ZERO)
  }

  ghost predicate IsFracText(t: seq<byte>) {
    t == [] || (|t| >= 2 && t[0] == DOT && AllDigits(t[1..]))
  }

  ghost predicate IsExpText(t: seq<byte>) {
    t == [] || (|t| >= 2 && (t[0] == SMALL_E || t[0] == BIG_E) &&
      if t[1] == PLUS || t[1] == MINUS then |t| >= 3 && AllDigits(t[2..]) else AllDigits(t[1..]))
  }

  ghost predicate WfNumber(n: Number) {
    IsIntText(n.whole) && IsFracText(n.frac) && IsExpText(n.exp)
  }

  ghost predicate WfLabel(kind: Kind, l: Label) {
    match l
    case NoLabel => kind.Array?
    case Label(key, before, after) => kind.Object? && IsStringBody(key) && AllWs(before) && AllWs(after)
  }

  ghost predicate WfItem(kind: Kind, it: Item)
    decreases it
  {
    AllWs(it.lead) && WfLabel(kind, it.name) && Wf(it.value) && AllWs(it.trail)
  }

  ghost predicate WfItems(kind: Kind, items: Items)
    decreases items
  {
    match items
    case One(it) => WfItem(kind, it)
    case More(it, rest) => WfItem(kind, it) && WfItems(kind, rest)
  }

  ghost predicate Wf(v: Json) {
    match v
    case Str(body) => IsStringBody(body)
    case Num(n) => WfNumber(n)
    case Word(w) => w == TRUE_WORD || w == FALSE_WORD || w == NULL_WORD
    case Empty(_, gap) => AllWs(gap)
    case Full(kind, items) => WfItems(kind, items)
  }

  // ----- printing

  ghost function NumberText(n: Number): seq<byte> {
    (if n.neg then [MINUS] else []) + n.whole + n.frac + n.exp
  }

  ghost function Quoted(body: seq<byte>): seq<byte> { [QUOTE] + body + [QUOTE] }

  ghost function LabelText(l: Label): seq<byte> {
    match l
    case NoLabel => []
    case Label(key, before, after) => Quoted(key) + (before + [COLON] + after)
  }

  ghost function ItemText(it: Item): seq<byte> {
    it.lead + LabelText(it.name) + (Text(it.value) + it.trail)
  }

  ghost function ItemsText(items: Items): seq<byte> {
    match items
    case One(it) => ItemText(it)
    case More(it, rest) => ItemText(it) + ([COMMA] + ItemsText(rest))
  }

  ghost function Text(v: Json): seq<byte> {
    match v
    case Str(body) => Quoted(body)
    case Num(n) => NumberText(n)
    case Word(w) => w
    case Empty(kind, gap) => [Open(kind)] + gap + [Close(kind)]
    case Full(kind, items) => [Open(kind)] + ItemsText(items) + [Close(kind)]
  }

  // ----- the scanner's depth counter: one for a container, one more for the values in it

  ghost function Deep(v: Json): nat {
    match v
    case Empty(_, _) => 1
    case Full(_, items) => 2 + DeepItems(items)
    case _ => 0
  }

  ghost function DeepItems(items: Items): nat {
    match items
    case One(it) => Deep(it.value)
    case More(it, rest) => if Deep(it.value) > DeepItems(rest) then Deep(it.value) else DeepItems(rest)
  }

  /** Container nesting as a reader counts it: brackets open at once. */
  ghost function Levels(v: Json): nat {
    match v
    case Empty(_, _) => 1
    case Full(_, items) => 1 + LevelsItems(items)
    case _ => 0
  }

  ghost function LevelsItems(items: Items): nat {
    match items
    case One(it) => Levels(it.value)
    case More(it, rest) => if Levels(it.value) > LevelsItems(rest) then Levels(it.value) else LevelsItems(rest)
  }

  /** The counter is twice the nesting, less one at most for an empty innermost container. */
  lemma {:induction false} DeepIsTwicePerLevel(v: Json)
    ensures 2 * Levels(v) - 1 <= Deep(v) <= 2 * Levels(v)
  {
    if v.Full? { DeepItemsIsTwicePerLevel(v.items); }
  }

  lemma {:induction false} DeepItemsIsTwicePerLevel(items: Items)
    ensures 2 * LevelsItems(items) - 1 <= DeepItems(items) <= 2 * LevelsItems(items)
  {
    DeepIsTwicePerLevel(items.item.value);
    if items.More? { DeepItemsIsTwicePerLevel(items.rest); }
  }

  // ----- lengths and spans: where the parts of a tree stand when its text starts at offset i

  ghost function LenLabel(l: Label): nat {
    match l
    case NoLabel => 0
    case Label(key, before, after) => |key| + 2 + |before| + 1 + |after|
  }

  ghost function LenItem(it: Item): nat {
    |it.lead| + LenLabel(it.name) + Len(it.value) + |it.trail|
  }

  ghost function LenItems(items: Items): nat {
    match items
    case One(it) => LenItem(it)
    case More(it, rest) => LenItem(it) + 1 + LenItems(rest)
  }

  ghost function Len(v: Json): nat {
    match v
    case Str(body) => |body| + 2
    case Num(n) => |NumberText(n)|
    case Word(w) => |w|
    case Empty(_, gap) => |gap| + 2
    case Full(_, items) => LenItems(items) + 2
  }

  datatype Span = Span(start: int, end: int)

  datatype Entry = Entry(key: Span, value: Span)

  ghost function LabelSpan(l: Label, i: nat): Span {
    match l
    case NoLabel => Span(i, i)
    case Label(key, _, _) => Span(i, i + |key| + 2)
  }

  ghost function ItemEntry(it: Item, i: nat): Entry {
    var k := i + |it.lead|;
    var v := k + LenLabel(it.name);
    Entry(LabelSpan(it.name, k), Span(v, v + Len(it.value)))
  }

  ghost function Entries(items: Items, i: nat): seq<Entry> {
    match items
    case One(it) => [ItemEntry(it, i)]
    case More(it, rest) => [ItemEntry(it, i)] + Entries(rest, i + LenItem(it) + 1)
  }

  // ----- layout: a tree printed at offset i of s, said part by part

  ghost predicate FitsQuoted(body: seq<byte>, s: seq<byte>, i: nat) {
    i + |body| + 2 <= |s| && s[i] == QUOTE && At(s, i + 1, body) && s[i + 1 + |body|] == QUOTE
  }

  ghost predicate FitsLabel(l: Label, s: seq<byte>, i: nat) {
    match l
    case NoLabel => i <= |s|
    case Label(key, before, after) =>
      var e := i + |key| + 2;
      var c := e + |before|;
      FitsQuoted(key, s, i) && At(s, e, before) && c < |s| && s[c] == COLON && At(s, c + 1, after)
  }

  ghost predicate FitsItem(it: Item, s: seq<byte>, i: nat) {
    var k := i + |it.lead|;
    var v := k + LenLabel(it.name);
    At(s, i, it.lead) && FitsLabel(it.name, s, k) && Fits(it.value, s, v) && At(s, v + Len(it.value), it.trail)
  }

  ghost predicate FitsItems(items: Items, s: seq<byte>, i: nat) {
    match items
    case One(it) => FitsItem(it, s, i)
    case More(it, rest) =>
      var j := i + LenItem(it);
      FitsItem(it, s, i) && j < |s| && s[j] == COMMA && FitsItems(rest, s, j + 1)
  }

  ghost predicate Fits(v: Json, s: seq<byte>, i: nat) {
    match v
    case Str(body) => FitsQuoted(body, s, i)
    case Num(n) => At(s, i, NumberText(n))
    case Word(w) => At(s, i, w)
    case Empty(kind, gap) =>
      && i + |gap| + 2 <= |s|
      && s[i] == Open(kind) && At(s, i + 1, gap) && s[i + 1 + |gap|] == Close(kind)
    case Full(kind, items) =>
      var e := i + 1 + LenItems(items);
      i < e < |s| && s[i] == Open(kind) && FitsItems(items, s, i + 1) && s[e] == Close(kind)
  }

  lemma QuotedLayout(body: seq<byte>, s: seq<byte>, i: nat)
    ensures FitsQuoted(body, s, i) <==> At(s, i, Quoted(body))
  {
    AtSplit3(s, i, [QUOTE], body, [QUOTE]);
    AtByte(s, i, QUOTE);
    AtByte(s, i + 1 + |body|, QUOTE);
  }

  lemma LabelLayout(l: Label, s: seq<byte>, i: nat)
    ensures |LabelText(l)| == LenLabel(l)
    ensures FitsLabel(l, s, i) <==> At(s, i, LabelText(l))
  {
    hide At, FitsQuoted;
    if l.NoLabel? {
      AtEmpty(s, i);
    } else {
      QuotedLayout(l.key, s, i);
      var e := i + |Quoted(l.key)|;
      AtSplit(s, i, Quoted(l.key), l.before + [COLON] + l.after);
      AtSplit3(s, e, l.before, [COLON], l.after);
      AtByte(s, e + |l.before|, COLON);
    }
  }

  lemma {:induction false} TextLen(v: Json)
    ensures |Text(v)| == Len(v)
  {
    if v.Full? { ItemsTextLen(v.items); }
  }

  lemma {:induction false} ItemTextLen(it: Item)
    ensures |ItemText(it)| == LenItem(it)
  {
    TextLen(it.value);
  }

  lemma {:induction false} ItemsTextLen(items: Items)
    ensures |ItemsText(items)| == LenItems(items)
  {
    ItemTextLen(items.item);
    if items.More? { ItemsTextLen(items.rest); }
  }

  /** Printing a tree at i, and laying it out there part by part, are the same thing. */
  lemma {:induction false} Layout(v: Json, s: seq<byte>, i: nat)
    ensures Fits(v, s, i) <==> At(s, i, Text(v))
    decreases v
  {
    hide At, FitsItems, ItemsText, LenItems;
    match v
    case Str(body) => QuotedLayout(body, s, i);
    case Num(_) =>
    case Word(_) =>
    case Empty(kind, gap) => BracketLayout(kind, gap, s, i);
    case Full(kind, items) =>
      ItemsTextLen(items);
      ItemsLayout(items, s, i + 1);
      BracketLayout(kind, ItemsText(items), s, i);
  }

  lemma BracketLayout(kind: Kind, t: seq<byte>, s: seq<byte>, i: nat)
    ensures At(s, i, [Open(kind)] + t + [Close(kind)]) <==>
            i + |t| + 2 <= |s| && s[i] == Open(kind) && At(s, i + 1, t) && s[i + 1 + |t|] == Close(kind)
  {
    AtSplit3(s, i, [Open(kind)], t, [Close(kind)]);
    AtByte(s, i, Open(kind));
    AtByte(s, i + 1 + |t|, Close(kind));
  }

  lemma {:induction false} ItemLayout(it: Item, s: seq<byte>, i: nat)
    ensures FitsItem(it, s, i) <==> At(s, i, ItemText(it))
    decreases it
  {
    hide At, Fits, Text, Len;
    var k := i + |it.lead|;
    var e := k + LenLabel(it.name);
    TextLen(it.value);
    LabelLayout(it.name, s, k);
    Layout(it.value, s, e);
    AtSplit3(s, i, it.lead, LabelText(it.name), Text(it.value) + it.trail);
    AtSplit(s, e, Text(it.value), it.trail);
  }

  lemma {:induction false} ItemsLayout(items: Items, s: seq<byte>, i: nat)
    ensures FitsItems(items, s, i) <==> At(s, i, ItemsText(items))
    decreases items
  {
    hide At, FitsItem, ItemText, LenItem;
    ItemLayout(items.item, s, i);
    if items.More? {
      ItemTextLen(items.item);
      var j := i + LenItem(items.item);
      ItemsLayout(items.rest, s, j + 1);
      CommaLayout(ItemText(items.item), ItemsText(items.rest), s, i);
    }
  }

  lemma CommaLayout(a: seq<byte>, b: seq<byte>, s: seq<byte>, i: nat)
    ensures At(s, i, a + ([COMMA] + b)) <==>
            At(s, i, a) && i + |a| < |s| && s[i + |a|] == COMMA && At(s, i + |a| + 1, b)
  {
    AtSplit(s, i, a, [COMMA] + b);
    AtSplit(s, i + |a|, [COMMA], b);
    AtByte(s, i + |a|, COMMA);
  }

  // ----- what can begin a value

  ghost predicate StartsValue(v: Json, b: byte) {
    match v
    case Str(_) => b == QUOTE
    case Num(_) => b == MINUS || IsDigit(b)
    case Word(w) => (w == TRUE_WORD && b == 0x74) || (w == FALSE_WORD && b == 0x66) || (w == NULL_WORD && b == 0x6E)
    case Empty(kind, _) => b == Open(kind)
    case Full(kind, _) => b == Open(kind)
  }

  lemma FirstByte(v: Json)
    requires Wf(v)
    ensures |Text(v)| > 0 && StartsValue(v, Text(v)[0]) && !IsWs(Text(v)[0])
  {
    match v
    case Num(n) => assert n.neg ==> NumberText(n)[0] == MINUS;
                   assert !n.neg ==> NumberText(n)[0] == n.whole[0];
    case _ =>
  }
}
