/** The scanner of common/json_stream.go without its window: the same decisions at
    the same offsets, taken directly on the bytes of the range. `room` is the
    nesting limit minus the code's depth argument. */
module JsonParse {
  import opened Options
  import opened Bytes
  import opened JsonGrammar

  function SkipWs(s: seq<byte>, i: nat): (r: nat)
    ensures i <= r && (r <= |s| || r == i)
    ensures forall k | i <= k < r :: k < |s| && IsWs(s[k])
    ensures r < |s| ==> !IsWs(s[r])
    decreases |s| - i
  {
    if i < |s| && IsWs(s[i]) then SkipWs(s, i + 1) else i
  }

  function SkipDigits(s: seq<byte>, i: nat): (r: nat)
    ensures i <= r && (r <= |s| || r == i)
    ensures forall k | i <= k < r :: k < |s| && IsDigit(s[k])
    ensures r < |s| ==> !IsDigit(s[r])
    decreases |s| - i
  {
    if i < |s| && IsDigit(s[i]) then SkipDigits(s, i + 1) else i
  }

  /** From just after the opening quote to just after the closing one. */
  function ScanStringTail(s: seq<byte>, i: nat): (r: Option<nat>)
    ensures r.Some? ==> i < r.value <= |s|
    decreases |s| - i
  {
    if i >= |s| then None
    else if s[i] == QUOTE then Some(i + 1)
    else if s[i] == BACKSLASH then
      if i + 1 >= |s| then None
      else if IsShortEscape(s[i + 1]) then ScanStringTail(s, i + 2)
      else if s[i + 1] == SMALL_U && HexRun(s, i + 2, 4) then ScanStringTail(s, i + 6)
      else None
    else if s[i] < 0x20 then None
    else ScanStringTail(s, i + 1)
  }

  predicate HexRun(s: seq<byte>, i: nat, n: nat)
    decreases n
  {
    n == 0 || (i < |s| && IsHex(s[i]) && HexRun(s, i + 1, n - 1))
  }

  function ScanString(s: seq<byte>, i: nat): (r: Option<nat>)
    ensures r.Some? ==> i + 1 < r.value <= |s|
  {
    if i < |s| && s[i] == QUOTE then ScanStringTail(s, i + 1) else None
  }

  function ScanInt(s: seq<byte>, i: nat): (r: Option<nat>)
    ensures r.Some? ==> i < r.value <= |s|
  {
    if i >= |s| then None
    else if s[i] == ZERO then
      if i + 1 < |s| && IsDigit(s[i + 1]) then None else Some(i + 1)
    else if IsDigit(s[i]) then Some(SkipDigits(s, i + 1))
    else None
  }

  function ScanFrac(s: seq<byte>, i: nat): (r: Option<nat>)
    ensures r.Some? && i <= |s| ==> i <= r.value <= |s|
  {
    if i < |s| && s[i] == DOT then
      if i + 1 < |s| && IsDigit(s[i + 1]) then Some(SkipDigits(s, i + 2)) else None
    else Some(i)
  }

  function ScanExp(s: seq<byte>, i: nat): (r: Option<nat>)
    ensures r.Some? && i <= |s| ==> i <= r.value <= |s|
  {
    if i < |s| && (s[i] == SMALL_E || s[i] == BIG_E) then
      var j := if i + 1 < |s| && (s[i + 1] == PLUS || s[i + 1] == MINUS) then i + 2 else i + 1;
      if j < |s| && IsDigit(s[j]) then Some(SkipDigits(s, j + 1)) else None
    else Some(i)
  }

  function ScanNumber(s: seq<byte>, i: nat): (r: Option<nat>)
    ensures r.Some? ==> i < r.value <= |s|
  {
    var j := if i < |s| && s[i] == MINUS then i + 1 else i;
    match ScanInt(s, j)
    case None => None
    case Some(k) =>
      match ScanFrac(s, k)
      case None => None
      case Some(m) => ScanExp(s, m)
  }

  function ScanWord(s: seq<byte>, i: nat, w: seq<byte>): (r: Option<nat>) {
    if i + |w| <= |s| && (forall k {:trigger w[k]} | 0 <= k < |w| :: s[i + k] == w[k]) then Some(i + |w|) else None
  }

  datatype Scanned = Scanned(entries: seq<Entry>, end: nat)

  function ScanValue(s: seq<byte>, i: nat, room: int): (r: Option<Span>)
    ensures r.Some? ==> i <= SkipWs(s, i) == r.value.start < r.value.end <= |s|
    decreases |s| - i, 3
  {
    if room < 0 then None else
    var j := SkipWs(s, i);
    if j >= |s| then None else
    match ScanValueAt(s, j, room)
    case None => None
    case Some(e) => Some(Span(j, e))
  }

  /** A value with no whitespace before it. */
  function ScanValueAt(s: seq<byte>, j: nat, room: int): (r: Option<nat>)
    requires j < |s|
    ensures r.Some? ==> j < r.value <= |s|
    decreases |s| - j, 2
  {
    if s[j] == QUOTE then ScanString(s, j)
    else if s[j] == LBRACE then EndOf(ScanColl(Object, s, j, room - 1))
    else if s[j] == LBRACKET then EndOf(ScanColl(Array, s, j, room - 1))
    else if s[j] == 0x74 then ScanWord(s, j, TRUE_WORD)
    else if s[j] == 0x66 then ScanWord(s, j, FALSE_WORD)
    else if s[j] == 0x6E then ScanWord(s, j, NULL_WORD)
    else ScanNumber(s, j)
  }

  function EndOf(r: Option<Scanned>): Option<nat> {
    match r case None => None case Some(c) => Some(c.end)
  }

  function ScanColl(kind: Kind, s: seq<byte>, i: nat, room: int): (r: Option<Scanned>)
    ensures r.Some? ==> i < r.value.end <= |s|
    decreases |s| - i, 1
  {
    if room < 0 || i >= |s| || s[i] != Open(kind) then None else
    var j := SkipWs(s, i + 1);
    if j < |s| && s[j] == Close(kind) then Some(Scanned([], j + 1))
    else ScanItems(kind, s, j, room)
  }

  datatype ScannedLabel = ScannedLabel(key: Span, end: nat)

  /** Key, whitespace and colon of an object member; nothing for an array element. */
  function ScanLabel(kind: Kind, s: seq<byte>, i: nat): (r: Option<ScannedLabel>)
    ensures r.Some? ==> i <= r.value.end
  {
    var k := SkipWs(s, i);
    if kind.Array? then Some(ScannedLabel(Span(k, k), k)) else
    match ScanString(s, k)
    case None => None
    case Some(e) =>
      var c := SkipWs(s, e);
      if c < |s| && s[c] == COLON then Some(ScannedLabel(Span(k, e), c + 1)) else None
  }

  datatype ScannedItem = ScannedItem(entry: Entry, end: nat)

  /** One member or element with the whitespace after it. */
  function ScanItem(kind: Kind, s: seq<byte>, i: nat, room: int): (r: Option<ScannedItem>)
    ensures r.Some? ==> i < r.value.end < |s|
    decreases |s| - i, 4
  {
    match ScanLabel(kind, s, i)
    case None => None
    case Some(l) =>
      match ScanValue(s, l.end, room - 1)
      case None => None
      case Some(v) =>
        var j := SkipWs(s, v.end);
        if j >= |s| then None else Some(ScannedItem(Entry(l.key, v), j))
  }

  function ScanItems(kind: Kind, s: seq<byte>, i: nat, room: int): (r: Option<Scanned>)
    ensures r.Some? ==> i < r.value.end <= |s|
    decreases |s| - i, 5
  {
    match ScanItem(kind, s, i, room)
    case None => None
    case Some(it) =>
      if s[it.end] == COMMA then Prepend([it.entry], ScanItems(kind, s, it.end + 1, room))
      else if s[it.end] == Close(kind) then Some(Scanned([it.entry], it.end + 1))
      else None
  }

  function Prepend(done: seq<Entry>, r: Option<Scanned>): Option<Scanned> {
    match r case None => None case Some(c) => Some(Scanned(done + c.entries, c.end))
  }
}
