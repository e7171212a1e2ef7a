/**
  Detection of the terminal event in a server-sent event stream that arrives in chunks.

  A terminal marker is one of eight byte strings; the event it belongs to ends at the next
  blank line, written LF LF or CRLF CRLF (two of the line endings of section 9.2.5 of the
  WHATWG HTML Standard).
 */
module Sse {
  import opened Base
  import opened TailCapture

  datatype Terminal = Completed | Incomplete | Failed | Error

  /** A marker `"type":"..."`, with or without a space after the colon. */
  datatype Marker = Marker(spaced: bool, terminal: Terminal)

  /** The bytes of `"type":`. */
  const TYPE_FIELD: seq<byte> := [34, 116, 121, 112, 101, 34, 58]

  /** The quoted event name. */
  function EventName(t: Terminal): seq<byte> {
    match t
    // "response.completed"
    case Completed => [34, 114, 101, 115, 112, 111, 110, 115, 101, 46, 99, 111, 109, 112, 108, 101, 116, 101, 100, 34]
    // "response.incomplete"
    case Incomplete => [34, 114, 101, 115, 112, 111, 110, 115, 101, 46, 105, 110, 99, 111, 109, 112, 108, 101, 116,
        101, 34]
    // "response.failed"
    case Failed => [34, 114, 101, 115, 112, 111, 110, 115, 101, 46, 102, 97, 105, 108, 101, 100, 34]
    // "error"
    case Error => [34, 101, 114, 114, 111, 114, 34]
  }

  function Bytes(m: Marker): seq<byte> {
    TYPE_FIELD + (if m.spaced then [32] else []) + EventName(m.terminal)
  }

  const MARKERS: seq<Marker> :=
    [Marker(false, Completed), Marker(true, Completed),
     Marker(false, Incomplete), Marker(true, Incomplete),
     Marker(false, Failed), Marker(true, Failed),
     Marker(false, Error), Marker(true, Error)]

  const MARKER_CARRY: nat := 64
  const BOUNDARY_CARRY: nat := 3

  // ---------------------------------------------------------------- searching

  predicate At(s: seq<byte>, p: nat, b: seq<byte>) {
    p + |b| <= |s| && s[p..p + |b|] == b
  }

  /** The first position, from `p` on, at which `b` occurs. */
  function FirstFrom(s: seq<byte>, b: seq<byte>, p: nat): (r: Option<nat>)
    requires p <= |s|
    ensures r.Some? ==> p <= r.value && At(s, r.value, b) && forall q | p <= q < r.value :: !At(s, q, b)
    ensures r.None? ==> forall q | p <= q :: !At(s, q, b)
    decreases |s| - p
  {
    if At(s, p, b) then Some(p)
    else if p == |s| then None
    else FirstFrom(s, b, p + 1)
  }

  /** The earliest match of any of the markers; among equals the first listed wins. */
  function FindAmong(s: seq<byte>, markers: seq<Marker>): Option<(nat, Terminal)> {
    if markers == [] then None
    else
      var here := FirstFrom(s, Bytes(markers[0]), 0);
      var rest := FindAmong(s, markers[1..]);
      if here.None? then rest
      else if rest.Some? && rest.value.0 < here.value then rest
      else Some((here.value, markers[0].terminal))
  }

  function FindTerminal(s: seq<byte>): Option<(nat, Terminal)> {
    FindAmong(s, MARKERS)
  }

  predicate BoundaryAt(s: seq<byte>, p: nat) {
    At(s, p, [10, 10]) || At(s, p, [13, 10, 13, 10])
  }

  predicate ContainsBoundary(s: seq<byte>) {
    exists p | 0 <= p < |s| :: BoundaryAt(s, p)
  }

  /** What a search of the whole prefix of the stream says: the first terminal event that is complete. */
  function Verdict(s: seq<byte>): Option<Terminal> {
    match FindTerminal(s)
    case None => None
    case Some((p, t)) => if p <= |s| && ContainsBoundary(s[p..]) then Some(t) else None
  }

  // ---------------------------------------------------------------- the detector

  datatype Detector = Detector(carry: seq<byte>, pending: Option<Terminal>)

  const INITIAL: Detector := Detector([], None)

  function Observe(d: Detector, bytes: seq<byte>): (Detector, Option<Terminal>) {
    var combined := d.carry + bytes;
    match d.pending
    case Some(t) =>
      if ContainsBoundary(combined) then (INITIAL, Some(t))
      else (Detector(Last(combined, BOUNDARY_CARRY), Some(t)), None)
    case None =>
      match FindTerminal(combined)
      case None => (Detector(Last(combined, MARKER_CARRY), None), None)
      case Some((p, t)) =>
        var after := if p <= |combined| then combined[p..] else [];
        if ContainsBoundary(after) then (Detector([], None), Some(t))
        else (Detector(Last(after, BOUNDARY_CARRY), Some(t)), None)
  }

  // ---------------------------------------------------------------- markers

  ghost predicate Occurs(s: seq<byte>, p: nat, m: Marker) {
    At(s, p, Bytes(m))
  }

  /** An event name is quoted at both ends and nowhere else. */
  lemma NameQuotes(t: Terminal, i: nat)
    requires i < |EventName(t)|
    ensures 7 <= |EventName(t)| <= 21 && EventName(t)[0] == 34
    ensures 0 < i < |EventName(t)| - 1 ==> EventName(t)[i] != 34
    ensures EventName(t)[1] == if t == Error then 101 else 114
  {
  }

  /** Where the bytes of a marker come from. */
  lemma MarkerParts(m: Marker, d: nat)
    requires d < |Bytes(m)|
    ensures var k := if m.spaced then 8 else 7;
            && |Bytes(m)| == k + |EventName(m.terminal)|
            && Bytes(m)[d] == if d < 7 then TYPE_FIELD[d] else if d < k then 32 else EventName(m.terminal)[d - k]
  {
    hide EventName;
  }

  /** A marker begins with a quote and a `t`, and that pair does not recur inside it. */
  lemma MarkerShape(m: Marker, d: nat)
    requires d < |Bytes(m)| - 1
    ensures 14 <= |Bytes(m)| <= 29
    ensures Bytes(m)[d] == 34 && Bytes(m)[d + 1] == 116 <==> d == 0
  {
    MarkerParts(m, d);
    MarkerParts(m, d + 1);
    var k := if m.spaced then 8 else 7;
    hide EventName, Bytes;
    NameQuotes(m.terminal, if d < k then 0 else d - k);
  }

  lemma MarkerLength(m: Marker)
    ensures 14 <= |Bytes(m)| <= 29
  {
  }

  lemma NamesDiffer(a: Terminal, b: Terminal)
    requires EventName(a)[1] == EventName(b)[1]
    requires a != Error && b != Error ==> EventName(a)[10] == EventName(b)[10]
    ensures a == b
  {
  }

  lemma MarkerByte(s: seq<byte>, p: nat, m: Marker, d: nat)
    requires Occurs(s, p, m) && d < |Bytes(m)|
    ensures p + |Bytes(m)| <= |s| && s[p + d] == Bytes(m)[d]
  {
    hide Bytes;
    assert s[p..p + |Bytes(m)|][d] == s[p + d];
  }

  /** Different terminals have different markers, none a prefix of another. */
  lemma MarkersPrefixFree(a: Marker, b: Marker, s: seq<byte>, p: nat)
    requires Occurs(s, p, a) && Occurs(s, p, b)
    ensures a.terminal == b.terminal
  {
    MarkerLength(a);
    MarkerLength(b);
    NameQuotes(a.terminal, 0);
    NameQuotes(b.terminal, 0);
    hide Bytes, EventName, Occurs;
    MarkerByte(s, p, a, 7);
    MarkerByte(s, p, b, 7);
    MarkerParts(a, 7);
    MarkerParts(b, 7);
    assert a.spaced == b.spaced;
    var k := if a.spaced then 8 else 7;
    SameNameByte(a, b, s, p, k, 1);
    if a.terminal != Error && b.terminal != Error {
      LongNames(a.terminal);
      LongNames(b.terminal);
      SameNameByte(a, b, s, p, k, 10);
    }
    NamesDiffer(a.terminal, b.terminal);
  }

  lemma LongNames(t: Terminal)
    requires t != Error
    ensures |EventName(t)| > 10
  {
  }

  lemma SameNameByte(a: Marker, b: Marker, s: seq<byte>, p: nat, k: nat, i: nat)
    requires Occurs(s, p, a) && Occurs(s, p, b) && a.spaced == b.spaced && k == (if a.spaced then 8 else 7)
    requires i < |EventName(a.terminal)| && i < |EventName(b.terminal)|
    ensures EventName(a.terminal)[i] == EventName(b.terminal)[i]
  {
    assert |Bytes(a)| == k + |EventName(a.terminal)| && |Bytes(b)| == k + |EventName(b.terminal)|;
    hide Bytes, EventName, Occurs;
    MarkerByte(s, p, a, k + i);
    MarkerByte(s, p, b, k + i);
    MarkerParts(a, k + i);
    MarkerParts(b, k + i);
  }

  lemma MarkerListed(m: Marker)
    ensures m in MARKERS
  {
    var i := (match m.terminal case Completed => 0 case Incomplete => 2 case Failed => 4 case Error => 6)
             + if m.spaced then 1 else 0;
    assert MARKERS[i] == m;
  }
}
