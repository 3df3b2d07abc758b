/** Go's json.Valid: the same grammar with its own nesting limit of 10000 containers. */
module StdJson {
  import opened Options
  import opened Bytes
  import opened JsonGrammar
  import opened JsonParse
  import opened JsonSound
  import opened JsonComplete
  import opened JsonIndex

  const STD_LEVELS: nat := 10000

  predicate JsonValid(b: seq<byte>) {
    var r := ScanValue(b, 0, 2 * STD_LEVELS);
    r.Some? && SkipWs(b, r.value.end) == |b|
  }

  /** b is one JSON value with whitespace around it. */
  ghost predicate IsText(b: seq<byte>, d: Doc) {
    AllWs(d.lead) && AllWs(d.trail) && Wf(d.v) && b == d.lead + Text(d.v) + d.trail
  }

  lemma TextLayout(b: seq<byte>, d: Doc)
    ensures b == d.lead + Text(d.v) + d.trail <==>
            At(b, 0, d.lead) && Fits(d.v, b, |d.lead|) && At(b, |d.lead| + Len(d.v), d.trail) &&
            |d.lead| + Len(d.v) + |d.trail| == |b|
  {
    hide Fits, Len, Text, At;
    var t := d.lead + Text(d.v) + d.trail;
    Layout(d.v, b, |d.lead|);
    TextLen(d.v);
    AtSplit3(b, 0, d.lead, Text(d.v), d.trail);
    AtSlice(b, 0, t);
    assert b[0..] == b;
  }

  /** How the scanner sees a JSON text, whatever room it is given. */
  lemma TextScan(b: seq<byte>, d: Doc, room: int)
    requires IsText(b, d)
    ensures SkipWs(b, 0) == |d.lead| && SkipWs(b, |d.lead| + Len(d.v)) == |b|
    ensures ScanValue(b, 0, room) == if Deep(d.v) <= room then Some(Span(|d.lead|, |d.lead| + Len(d.v))) else None
  {
    hide Fits, Len, Text, Wf, Deep, At, ScanValue;
    TextLayout(b, d);
    FitsFirst(d.v, b, |d.lead|);
    WsSkipped(b, 0, d.lead);
    var e := |d.lead| + Len(d.v);
    WsSkipped(b, e, d.trail);
    AtWsEnds(b, e, d.trail);
    ValueComplete(b, 0, d.v, room);
  }

  lemma AtWsEnds(b: seq<byte>, e: nat, trail: seq<byte>)
    requires At(b, e, trail) && AllWs(trail) && e + |trail| == |b|
    ensures Ends(b, e)
  {
    if trail != [] { assert trail[0] == b[e]; }
  }

  lemma ValidSound(b: seq<byte>) returns (d: Doc)
    requires JsonValid(b)
    ensures IsText(b, d) && Levels(d.v) <= STD_LEVELS
  {
    hide Fits, Len, Text, Wf, Deep, At, ScanValue, Levels, AllWs;
    var v := ValueSound(b, 0, 2 * STD_LEVELS);
    var lead := WsGap(b, 0);
    var trail := WsGap(b, |lead| + Len(v));
    d := Doc(lead, v, trail);
    TextLayout(b, d);
    DeepIsTwicePerLevel(v);
  }

  /** Accepted exactly: a JSON text with at most 10000 containers open at once. */
  lemma JsonValidExact(b: seq<byte>)
    ensures JsonValid(b) <==> exists d :: IsText(b, d) && Levels(d.v) <= STD_LEVELS
  {
    hide JsonValid, IsText, Levels;
    if JsonValid(b) {
      var d := ValidSound(b);
    }
    forall d | IsText(b, d) && Levels(d.v) <= STD_LEVELS ensures JsonValid(b) {
      ValidComplete(b, d);
    }
  }

  lemma ValidComplete(b: seq<byte>, d: Doc)
    requires IsText(b, d) && Levels(d.v) <= STD_LEVELS
    ensures JsonValid(b)
  {
    hide Levels, Deep, IsText, ScanValue, SkipWs;
    DeepIsTwicePerLevel(d.v);
    TextScan(b, d, 2 * STD_LEVELS);
  }
}
