/** The scanner as written: a cursor over a sliding window of a random-access source
    whose reads may come back short. Each method is proved to decide and to move
    exactly as the unbuffered parser does, for every window size and every pattern
    of short reads. */
module JsonScanner {
  import opened Options
  import opened Bytes
  import opened JsonGrammar
  import opened JsonParse
  import opened JsonIndex
  import opened KeyNames

  /** A random-access source. A read returns any positive number of bytes up to the
      space it is given and the data there is; it returns none only past the end. */
  class Source {
    const data: seq<byte>

    constructor (data: seq<byte>)
      ensures this.data == data
    {
      this.data := data;
    }

    method ReadAt(p: array<byte>, size: nat, off: nat) returns (n: nat)
      requires size <= p.Length
      modifies p
      ensures n <= size && (n == 0 <==> size == 0 || off >= |data|)
      ensures n > 0 ==> off + n <= |data| && p[..n] == data[off..off + n]
    {
      if size == 0 || off >= |data| { return 0; }
      var most := if |data| - off < size then |data| - off else size;
      n :| 0 < n <= most;
      for k := 0 to n
        invariant p[..k] == data[off..off + k]
      {
        p[k] := data[off + k];
      }
    }
  }

  /** Bytes read inside the range are the bytes of the range. */
  lemma WindowFits(data: seq<byte>, end: nat, at: nat, window: seq<byte>)
    requires at + |window| <= |data| && at + |window| <= end && window == data[at..at + |window|]
    ensures at + |window| <= |Readable(data, end)| && window == Readable(data, end)[at..at + |window|]
  {
    if end <= |data| { assert data[..end][at..at + |window|] == data[at..at + |window|]; }
  }

  class Scanner {
    const source: Source
    const start: nat
    const end: nat
    const buffer: array<byte>
    var position: nat
    var bufStart: nat
    var bufEnd: nat

    ghost function Input(): seq<byte> { Readable(source.data, end) }

    /** The window holds the source bytes from the cursor on. What it holds before the
        cursor is never looked at again. */
    ghost predicate Valid()
      reads this, buffer
    {
      && buffer.Length > 0
      && start <= position <= end
      && bufStart <= bufEnd <= bufStart + buffer.Length
      && bufStart <= position
      && (position < bufEnd ==>
            bufEnd <= |Input()| && buffer[position - bufStart..bufEnd - bufStart] == Input()[position..bufEnd])
    }

    constructor (source: Source, start: nat, end: nat, size: nat)
      requires start <= end && size > 0
      ensures Valid() && fresh(buffer)
      ensures this.source == source && this.start == start && this.end == end && position == start
    {
      this.source := source;
      this.start := start;
      this.end := end;
      this.buffer := new byte[size];
      this.position := start;
      this.bufStart := 0;
      this.bufEnd := 0;
    }

    method Load() returns (ok: bool)
      requires Valid() && position >= bufEnd
      modifies this`bufStart, this`bufEnd, buffer
      ensures Valid()
      ensures ok <==> position < |Input()|
      ensures ok ==> bufStart == position < bufEnd
    {
      if position < start || position >= end { return false; }
      var remaining := end - position;
      var readSize := if remaining < buffer.Length then remaining else buffer.Length;
      var n := source.ReadAt(buffer, readSize, position);
      if n == 0 { return false; }
      bufStart := position;
      bufEnd := position + n;
      WindowFits(source.data, end, position, buffer[..n]);
      return true;
    }

    method PeekByte() returns (b: Option<byte>)
      requires Valid()
      modifies this`bufStart, this`bufEnd, buffer
      ensures Valid()
      ensures b == if position < |Input()| then Some(Input()[position]) else None
    {
      if position < bufStart || position >= bufEnd {
        var ok := Load();
        if !ok { return None; }
      }
      assert buffer[position - bufStart] == buffer[position - bufStart..bufEnd - bufStart][0];
      return Some(buffer[position - bufStart]);
    }

    method Advance()
      requires Valid() && position < |Input()|
      modifies this`position
      ensures Valid() && position == old(position) + 1
    {
      if position < bufEnd {
        assert buffer[position + 1 - bufStart..bufEnd - bufStart] == buffer[position - bufStart..bufEnd - bufStart][1..];
        assert Input()[position + 1..bufEnd] == Input()[position..bufEnd][1..];
      }
      position := position + 1;
    }

    method ReadByte() returns (b: Option<byte>)
      requires Valid()
      modifies this, buffer
      ensures Valid()
      ensures b == if old(position) < |Input()| then Some(Input()[old(position)]) else None
      ensures position == if b.Some? then old(position) + 1 else old(position)
    {
      b := PeekByte();
      if b.Some? { Advance(); }
    }

    method SkipWhitespace()
      requires Valid()
      modifies this, buffer
      ensures Valid()
      ensures position == SkipWs(Input(), old(position))
    {
      while position < end
        invariant Valid() && old(position) <= position
        invariant SkipWs(Input(), position) == SkipWs(Input(), old(position))
        decreases end - position
      {
        var b := PeekByte();
        if b.None? { return; }
        if IsWs(b.value) { Advance(); } else { return; }
      }
    }

    method ExpectByte(expected: byte) returns (ok: bool)
      requires Valid()
      modifies this, buffer
      ensures Valid() && old(position) <= position
      ensures ok <==> old(position) < |Input()| && Input()[old(position)] == expected
      ensures ok ==> position == old(position) + 1
    {
      var b := ReadByte();
      ok := b == Some(expected);
    }

    method ParseString() returns (ok: bool)
      requires Valid()
      modifies this, buffer
      ensures Valid() && old(position) <= position
      ensures ok <==> ScanString(Input(), old(position)).Some?
      ensures ok ==> ScanString(Input(), old(position)) == Some(position)
    {
      ok := ExpectByte(QUOTE);
      if !ok { return; }
      while true
        invariant Valid() && old(position) < position
        invariant ScanStringTail(Input(), position) == ScanString(Input(), old(position))
        decreases end - position
      {
        var b := ReadByte();
        if b.None? { return false; }
        if b.value == QUOTE { return true; }
        if b.value == BACKSLASH {
          var escape := ReadByte();
          if escape.None? { return false; }
          if escape.value == SMALL_U {
            ok := ParseHexDigits(4);
            if !ok { return; }
          } else if !IsShortEscape(escape.value) {
            return false;
          }
        } else if b.value < 0x20 {
          return false;
        }
      }
    }

    method ParseHexDigits(count: nat) returns (ok: bool)
      requires Valid()
      modifies this, buffer
      ensures Valid() && old(position) <= position
      ensures ok <==> HexRun(Input(), old(position), count)
      ensures ok ==> position == old(position) + count
    {
      for k := 0 to count
        invariant Valid() && position == old(position) + k
        invariant HexRun(Input(), position, count - k) == HexRun(Input(), old(position), count)
      {
        var hex := ReadByte();
        if hex.None? || !IsHex(hex.value) { return false; }
      }
      return true;
    }

    method ParseLiteral(literal: seq<byte>) returns (ok: bool)
      requires Valid() && literal != []
      modifies this, buffer
      ensures Valid() && old(position) <= position
      ensures ok <==> ScanWord(Input(), old(position), literal).Some?
      ensures ok ==> ScanWord(Input(), old(position), literal) == Some(position)
    {
      for k := 0 to |literal|
        invariant Valid() && position == old(position) + k
        invariant old(position) + k <= |Input()| || k == 0
        invariant forall j | 0 <= j < k :: Input()[old(position) + j] == literal[j]
      {
        var b := ReadByte();
        if b != Some(literal[k]) { return false; }
      }
      return true;
    }

    /** Advances past at least one byte and then past all digits that follow. */
    method PassDigits()
      requires Valid() && position < |Input()|
      modifies this, buffer
      ensures Valid()
      ensures position == SkipDigits(Input(), old(position) + 1)
    {
      Advance();
      while true
        invariant Valid() && old(position) < position
        invariant SkipDigits(Input(), position) == SkipDigits(Input(), old(position) + 1)
        decreases end - position
      {
        var next := PeekByte();
        if next.None? || !IsDigit(next.value) { return; }
        Advance();
      }
    }

    method ParseInt() returns (ok: bool)
      requires Valid()
      modifies this, buffer
      ensures Valid() && old(position) <= position
      ensures ok <==> ScanInt(Input(), old(position)).Some?
      ensures ok ==> ScanInt(Input(), old(position)) == Some(position)
    {
      var b := PeekByte();
      if b.None? { return false; }
      if b.value == ZERO {
        Advance();
        var next := PeekByte();
        return !(next.Some? && IsDigit(next.value));
      } else if IsDigit(b.value) {
        PassDigits();
        return true;
      } else {
        return false;
      }
    }

    method ParseFrac() returns (ok: bool)
      requires Valid()
      modifies this, buffer
      ensures Valid() && old(position) <= position
      ensures ok <==> ScanFrac(Input(), old(position)).Some?
      ensures ok ==> ScanFrac(Input(), old(position)) == Some(position)
    {
      var next := PeekByte();
      if next != Some(DOT) { return true; }
      Advance();
      var digit := PeekByte();
      if digit.None? || !IsDigit(digit.value) { return false; }
      PassDigits();
      return true;
    }

    /** An optional sign of an exponent, and the byte after it. */
    method PassSign() returns (next: Option<byte>)
      requires Valid() && position <= |Input()|
      modifies this, buffer
      ensures Valid() && position <= |Input()|
      ensures position == if old(position) < |Input()| && (Input()[old(position)] == PLUS || Input()[old(position)] == MINUS)
                          then old(position) + 1 else old(position)
      ensures next == if position < |Input()| then Some(Input()[position]) else None
    {
      next := PeekByte();
      if next == Some(PLUS) || next == Some(MINUS) {
        Advance();
        next := PeekByte();
      }
    }

    method ParseExp() returns (ok: bool)
      requires Valid()
      modifies this, buffer
      ensures Valid() && old(position) <= position
      ensures ok <==> ScanExp(Input(), old(position)).Some?
      ensures ok ==> ScanExp(Input(), old(position)) == Some(position)
    {
      hide SkipDigits;
      var next := PeekByte();
      if next != Some(SMALL_E) && next != Some(BIG_E) { return true; }
      Advance();
      next := PassSign();
      if next.None? || !IsDigit(next.value) { return false; }
      PassDigits();
      return true;
    }

    method ParseNumber() returns (ok: bool)
      requires Valid()
      modifies this, buffer
      ensures Valid() && old(position) <= position
      ensures ok <==> ScanNumber(Input(), old(position)).Some?
      ensures ok ==> ScanNumber(Input(), old(position)) == Some(position)
    {
      hide ScanFrac, ScanExp;
      var b := PeekByte();
      if b.None? { return false; }
      if b.value == MINUS { Advance(); }
      ok := ParseInt();
      if !ok { return; }
      ok := ParseFrac();
      if !ok { return; }
      ok := ParseExp();
    }

    method ParseValue(depth: int) returns (r: Option<Span>)
      requires Valid()
      modifies this, buffer
      ensures Valid() && old(position) <= position
      ensures r == ScanValue(Input(), old(position), MAX_DEPTH - depth)
      ensures r.Some? ==> position == r.value.end
      decreases MAX_DEPTH + 2 - depth, 0
    {
      hide ScanString, ScanWord, ScanNumber, ScanColl;
      if depth > MAX_DEPTH { return None; }
      SkipWhitespace();
      var from := position;
      var b := PeekByte();
      if b.None? { return None; }
      var ok: bool;
      if b.value == QUOTE {
        ok := ParseString();
      } else if b.value == LBRACE {
        var fields := ParseObject(depth + 1, false);
        ok := fields.Some?;
      } else if b.value == LBRACKET {
        var values := ParseArray(depth + 1, false);
        ok := values.Some?;
      } else if b.value == 0x74 {
        ok := ParseLiteral(TRUE_WORD);
      } else if b.value == 0x66 {
        ok := ParseLiteral(FALSE_WORD);
      } else if b.value == 0x6E {
        ok := ParseLiteral(NULL_WORD);
      } else {
        ok := ParseNumber();
      }
      return if ok then Some(Span(from, position)) else None;
    }

    /** The index an object gives: its named fields if they are collected and every key is short enough. */
    ghost function ObjectResult(c: Option<Scanned>, collect: bool): Option<seq<Field>> {
      if c.None? || (collect && !KeysFit(c.value.entries)) then None
      else Some(if collect then Named(source.data, c.value.entries) else [])
    }

    ghost function ArrayResult(c: Option<Scanned>, collect: bool): Option<seq<Span>> {
      if c.None? then None else Some(if collect then Values(c.value.entries) else [])
    }

    /** The key of a member, with the colon after it. */
    method ParseKey() returns (r: Option<Span>)
      requires Valid()
      modifies this, buffer
      ensures Valid() && old(position) <= position
      ensures var l := ScanLabel(Object, Input(), old(position));
              && (r.Some? <==> l.Some?)
              && (r.Some? ==> l.value == ScannedLabel(r.value, position) && 0 <= r.value.start < r.value.end <= |Input()|)
    {
      hide SkipWs, ScanString;
      SkipWhitespace();
      var keyStart := position;
      var ok := ParseString();
      if !ok { return None; }
      var keyEnd := position;
      SkipWhitespace();
      ok := ExpectByte(COLON);
      return if ok then Some(Span(keyStart, keyEnd)) else None;
    }

    /** One member up to and including the separator after it. */
    method ParseMember(depth: int, collect: bool) returns (r: Option<(Field, byte)>)
      requires Valid() && depth <= MAX_DEPTH
      modifies this, buffer
      ensures Valid() && old(position) <= position
      ensures var it := ScanItem(Object, Input(), old(position), MAX_DEPTH - depth);
              && (r.Some? <==> it.Some? && (collect ==> KeyFits(it.value.entry)))
              && (r.Some? ==> position == it.value.end + 1 && r.value.1 == Input()[it.value.end])
              && (r.Some? && collect ==> r.value.0 == NamedField(source.data, it.value.entry))
      decreases MAX_DEPTH + 2 - depth, 0
    {
      hide SkipWs, ScanLabel, ScanValue;
      var key := ParseKey();
      if key.None? { return None; }
      var value := ParseValue(depth + 1);
      if value.None? { return None; }
      var field := Field([], key.value, value.value);
      if collect {
        var name := ReadJSONSpan(source, key.value, MAX_KEY_BYTES);
        if name.None? { return None; }
        field := field.(name := DecodeName(name.value));
      }
      SkipWhitespace();
      var separator := ReadByte();
      return if separator.None? then None else Some((field, separator.value));
    }

    method ParseObject(depth: int, collect: bool) returns (r: Option<seq<Field>>)
      requires Valid()
      modifies this, buffer
      ensures Valid() && old(position) <= position
      ensures r == ObjectResult(ScanColl(Object, Input(), old(position), MAX_DEPTH - depth), collect)
      ensures r.Some? ==> position == ScanColl(Object, Input(), old(position), MAX_DEPTH - depth).value.end
      decreases MAX_DEPTH + 2 - depth, 1
    {
      hide ScanItem, ScanItems, SkipWs, Named, NamedField, KeysFit, KeyFits;
      EmptyIndex(source.data);
      if depth > MAX_DEPTH { return None; }
      var ok := ExpectByte(LBRACE);
      if !ok { return None; }
      SkipWhitespace();
      var b := PeekByte();
      if b == Some(RBRACE) {
        Advance();
        return Some([]);
      }
      ghost var from, room := position, MAX_DEPTH - depth;
      ghost var done: seq<Entry> := [];
      var fields: seq<Field> := [];
      while true
        invariant Valid() && old(position) < position
        invariant Prepend(done, ScanItems(Object, Input(), position, room)) == ScanItems(Object, Input(), from, room)
        invariant collect ==> KeysFit(done) && fields == Named(source.data, done)
        invariant !collect ==> fields == []
        decreases end - position
      {
        ghost var at := position;
        ItemsStep(Object, Input(), at, room, done);
        var member := ParseMember(depth, collect);
        if member.None? { return None; }
        ghost var entry := ScanItem(Object, Input(), at, room).value.entry;
        if collect {
          IndexStep(source.data, done, entry);
          fields := fields + [member.value.0];
        }
        done := done + [entry];
        if member.value.1 == RBRACE { return Some(fields); }
        if member.value.1 != COMMA { return None; }
      }
    }

    method ParseArray(depth: int, collect: bool) returns (r: Option<seq<Span>>)
      requires Valid()
      modifies this, buffer
      ensures Valid() && old(position) <= position
      ensures r == ArrayResult(ScanColl(Array, Input(), old(position), MAX_DEPTH - depth), collect)
      ensures r.Some? ==> position == ScanColl(Array, Input(), old(position), MAX_DEPTH - depth).value.end
      decreases MAX_DEPTH + 2 - depth, 1
    {
      hide ScanItem, ScanItems, SkipWs, Values, KeysFit, KeyFits;
      if depth > MAX_DEPTH { return None; }
      var ok := ExpectByte(LBRACKET);
      if !ok { return None; }
      SkipWhitespace();
      var b := PeekByte();
      EmptyIndex(source.data);
      if b == Some(RBRACKET) {
        Advance();
        return Some([]);
      }
      ghost var from, room := position, MAX_DEPTH - depth;
      ghost var done: seq<Entry> := [];
      var values: seq<Span> := [];
      while true
        invariant Valid() && old(position) < position
        invariant Prepend(done, ScanItems(Array, Input(), position, room)) == ScanItems(Array, Input(), from, room)
        invariant collect ==> values == Values(done)
        invariant !collect ==> values == []
        decreases end - position
      {
        ghost var at := position;
        ItemsStep(Array, Input(), at, room, done);
        var element := ParseElement(depth);
        if element.None? { return None; }
        ghost var entry := ScanItem(Array, Input(), at, room).value.entry;
        if collect {
          ValuesStep(done, entry);
          values := values + [element.value.0];
        }
        done := done + [entry];
        if element.value.1 == RBRACKET { return Some(values); }
        if element.value.1 != COMMA { return None; }
      }
    }

    /** One element up to and including the separator after it. */
    method ParseElement(depth: int) returns (r: Option<(Span, byte)>)
      requires Valid() && depth <= MAX_DEPTH
      modifies this, buffer
      ensures Valid() && old(position) <= position
      ensures var it := ScanItem(Array, Input(), old(position), MAX_DEPTH - depth);
              && (r.Some? <==> it.Some?)
              && (r.Some? ==> position == it.value.end + 1 && r.value == (it.value.entry.value, Input()[it.value.end]))
      decreases MAX_DEPTH + 2 - depth, 0
    {
      hide SkipWs, ScanItem, ScanValue;
      ElementStep(Input(), position, MAX_DEPTH - depth);
      var value := ParseValue(depth + 1);
      if value.None? { return None; }
      SkipWhitespace();
      var separator := ReadByte();
      return if separator.None? then None else Some((value.value, separator.value));
    }

    method FinishRange() returns (ok: bool)
      requires Valid()
      modifies this, buffer
      ensures ok <==> SkipWs(Input(), old(position)) == end
    {
      SkipWhitespace();
      return position == end;
    }
  }

  lemma EmptyIndex(data: seq<byte>)
    ensures KeysFit([]) && Named(data, []) == [] && Values([]) == []
    ensures forall r :: Prepend([], r) == r
  {
    forall r ensures Prepend([], r) == r {
      if r.Some? { assert [] + r.value.entries == r.value.entries; }
    }
  }

  lemma IndexStep(data: seq<byte>, done: seq<Entry>, entry: Entry)
    ensures Named(data, done + [entry]) == Named(data, done) + [NamedField(data, entry)]
    ensures KeysFit(done + [entry]) <==> KeysFit(done) && KeyFits(entry)
  {
    var es := done + [entry];
    assert es[|done|] == entry;
    assert forall i | 0 <= i < |done| :: es[i] == done[i];
  }

  lemma ValuesStep(done: seq<Entry>, entry: Entry)
    ensures Values(done + [entry]) == Values(done) + [entry.value]
  {
  }

  /** One turn of the loop over members or elements. */
  lemma ItemsStep(kind: Kind, s: seq<byte>, i: nat, room: int, done: seq<Entry>)
    ensures var it := ScanItem(kind, s, i, room);
            var r := Prepend(done, ScanItems(kind, s, i, room));
            if it.None? then r.None?
            else
              var done' := done + [it.value.entry];
              && (s[it.value.end] == COMMA ==> r == Prepend(done', ScanItems(kind, s, it.value.end + 1, room)))
              && (s[it.value.end] == Close(kind) ==> r == Some(Scanned(done', it.value.end + 1)))
              && (s[it.value.end] != COMMA && s[it.value.end] != Close(kind) ==> r.None?)
              && (r.Some? ==> !KeyFits(it.value.entry) ==> !KeysFit(r.value.entries))
  {
    hide ScanItem;
    var it := ScanItem(kind, s, i, room);
    var all := ScanItems(kind, s, i, room);
    if it.Some? && all.Some? {
      var done' := done + [it.value.entry];
      assert all.value.entries[0] == it.value.entry;
      assert (done + all.value.entries)[|done|] == it.value.entry;
      if s[it.value.end] == COMMA {
        var rest := ScanItems(kind, s, it.value.end + 1, room).value.entries;
        assert done + ([it.value.entry] + rest) == done' + rest;
      }
    }
  }

  lemma ElementStep(s: seq<byte>, i: nat, room: int)
    ensures var v := ScanValue(s, i, room - 1);
            var it := ScanItem(Array, s, i, room);
            && (v.None? ==> it.None?)
            && (v.Some? ==> (it.Some? <==> SkipWs(s, v.value.end) < |s|))
            && (it.Some? ==> it.value == ScannedItem(Entry(Span(SkipWs(s, i), SkipWs(s, i)), v.value), SkipWs(s, v.value.end)))
  {
    hide ScanValueAt;
    assert SkipWs(s, SkipWs(s, i)) == SkipWs(s, i);
    assert ScanValue(s, SkipWs(s, i), room - 1) == ScanValue(s, i, room - 1);
  }

  /** A bounded read of a span, through reads that may come back short. */
  method ReadJSONSpan(source: Source, span: Span, maxBytes: int) returns (r: Option<seq<byte>>)
    ensures r == var length := span.end - span.start;
                 if length < 0 || (maxBytes >= 0 && length > maxBytes) then None
                 else if length == 0 then Some([])
                 else if span.start < 0 || span.end > |source.data| then None
                 else Some(source.data[span.start..span.end])
  {
    var length := span.end - span.start;
    if length < 0 { return None; }
    if maxBytes >= 0 && length > maxBytes { return None; }
    if length == 0 { return Some([]); }
    if span.start < 0 { return None; }
    var chunk := new byte[length];
    var data: seq<byte> := [];
    while |data| < length
      invariant |data| <= length
      invariant data != [] ==> span.start + |data| <= |source.data| && data == source.data[span.start..span.start + |data|]
      decreases length - |data|
    {
      var n := source.ReadAt(chunk, length - |data|, span.start + |data|);
      if n == 0 { return None; }
      data := data + chunk[..n];
    }
    return Some(data);
  }

  /** Any buffer size will do; the code uses 8 KiB. */
  type Window = n: nat | n > 0 witness 8192

  /** Validates an object in a range and returns its direct fields. */
  method IndexJSONObject(source: Source, span: Span, window: Window) returns (r: Option<seq<Field>>)
    ensures r == IndexFields(source.data, span)
  {
    if span.start < 0 || span.end < span.start { return None; }
    var scanner := new Scanner(source, span.start, span.end, window);
    scanner.SkipWhitespace();
    r := scanner.ParseObject(0, true);
    if r.None? { return None; }
    var ok := scanner.FinishRange();
    if !ok { return None; }
  }

  method IndexJSONArray(source: Source, span: Span, window: Window) returns (r: Option<seq<Span>>)
    ensures r == IndexValues(source.data, span)
  {
    if span.start < 0 || span.end < span.start { return None; }
    var scanner := new Scanner(source, span.start, span.end, window);
    scanner.SkipWhitespace();
    r := scanner.ParseArray(0, true);
    if r.None? { return None; }
    var ok := scanner.FinishRange();
    if !ok { return None; }
  }
}
