/** The chunk-by-chunk detector agrees with a search of the whole stream, however it is cut. */
module SseStream {
  import opened Base
  import opened TailCapture
  import opened Sse

  // ---------------------------------------------------------------- what the search finds

  ghost predicate FoundAt(s: seq<byte>, p: nat, t: Terminal) {
    exists m: Marker :: m.terminal == t && Occurs(s, p, m)
  }

  ghost predicate NoneBefore(s: seq<byte>, p: nat) {
    forall q: nat, m: Marker | q < p :: !Occurs(s, q, m)
  }

  ghost predicate Leftmost(s: seq<byte>, markers: seq<Marker>, r: Option<(nat, Terminal)>) {
    if r.None? then forall q: nat, m | m in markers :: !Occurs(s, q, m)
    else
      && (exists m | m in markers :: m.terminal == r.value.1 && Occurs(s, r.value.0, m))
      && (forall q: nat, m | m in markers && q < r.value.0 :: !Occurs(s, q, m))
  }

  lemma {:induction false} FindAmongMeets(s: seq<byte>, markers: seq<Marker>)
    ensures Leftmost(s, markers, FindAmong(s, markers))
  {
    if markers != [] {
      hide Bytes, At;
      FindAmongMeets(s, markers[1..]);
      var m := markers[0];
      var here := FirstFrom(s, Bytes(m), 0);
      assert forall q: nat | here.None? || q < here.value :: !Occurs(s, q, m);
      assert here.Some? ==> Occurs(s, here.value, m);
      assert markers == [m] + markers[1..];
    }
  }

  /** The search returns the leftmost marker, and `None` exactly when there is none. */
  lemma FindTerminalMeets(s: seq<byte>)
    ensures FindTerminal(s).None? ==> forall q: nat, m :: !Occurs(s, q, m)
    ensures FindTerminal(s).Some? ==>
              FoundAt(s, FindTerminal(s).value.0, FindTerminal(s).value.1) && NoneBefore(s, FindTerminal(s).value.0)
  {
    hide Occurs, FindAmong;
    FindAmongMeets(s, MARKERS);
    var found := FindTerminal(s);
    forall q: nat, m: Marker | found.None? || q < found.value.0 ensures !Occurs(s, q, m) {
      MarkerListed(m);
    }
  }

  /** Leftmost markers are unique, so they are what the search returns. */
  lemma LeftmostIsFound(s: seq<byte>, p: nat, t: Terminal)
    requires FoundAt(s, p, t) && NoneBefore(s, p)
    ensures FindTerminal(s) == Some((p, t))
  {
    hide Occurs, FindTerminal;
    FindTerminalMeets(s);
    var m: Marker :| m.terminal == t && Occurs(s, p, m);
    var found := FindTerminal(s);
    assert found.Some? && found.value.0 == p;
    var n: Marker :| n.terminal == found.value.1 && Occurs(s, p, n);
    MarkersPrefixFree(m, n, s, p);
  }

  lemma NothingIsFound(s: seq<byte>)
    requires forall q: nat, m :: !Occurs(s, q, m)
    ensures FindTerminal(s) == None
  {
    hide Occurs, FindTerminal;
    FindTerminalMeets(s);
  }

  /** The first marker in `s` is one of `t`, and a blank line follows its beginning. */
  ghost predicate FirstEventIs(s: seq<byte>, t: Terminal) {
    exists p: nat, q: nat :: FoundAt(s, p, t) && NoneBefore(s, p) && p <= q && BoundaryAt(s, q)
  }

  lemma BoundaryBehind(s: seq<byte>, p: nat)
    requires p <= |s|
    ensures ContainsBoundary(s[p..]) <==> exists q: nat :: p <= q && BoundaryAt(s, q)
  {
    assert s == s[..p] + s[p..];
    forall q: nat ensures BoundaryAt(s, p + q) <==> BoundaryAt(s[p..], q) {
      BoundaryShifts(s[..p], s[p..], q);
    }
    if q: nat :| p <= q && BoundaryAt(s, q) {
      assert p + (q - p) == q && BoundaryAt(s[p..], q - p);
    }
    if q :| 0 <= q < |s[p..]| && BoundaryAt(s[p..], q) {
      assert BoundaryAt(s, p + q);
    }
    hide BoundaryAt;
  }

  /** The verdict on a stream is the kind of its first terminal marker, once the event of the marker is complete. */
  lemma VerdictExactly(s: seq<byte>, t: Terminal)
    ensures Verdict(s) == Some(t) <==> FirstEventIs(s, t)
  {
    FindTerminalMeets(s);
    FoundWithin(s);
    hide FindTerminal, FoundAt, NoneBefore, BoundaryAt, ContainsBoundary;
    if FindTerminal(s).Some? {
      BoundaryBehind(s, FindTerminal(s).value.0);
    }
    forall p: nat, u | FoundAt(s, p, u) && NoneBefore(s, p) ensures FindTerminal(s) == Some((p, u)) {
      LeftmostIsFound(s, p, u);
    }
  }

  /** Bytes as text. */
  function Text(b: seq<byte>): string { seq(|b|, i requires 0 <= i < |b| => b[i] as char) }

  /** The event types that end a response. */
  function TypeName(t: Terminal): string {
    match t
    case Completed => "response.completed"
    case Incomplete => "response.incomplete"
    case Failed => "response.failed"
    case Error => "error"
  }

  lemma TextJoins(a: seq<byte>, b: seq<byte>)
    ensures Text(a + b) == Text(a) + Text(b)
  {}

  lemma CompletedSpelled()
    ensures Text(EventName(Completed)) == "\"response.completed\""
  {}

  lemma IncompleteSpelled()
    ensures Text(EventName(Incomplete)) == "\"response.incomplete\""
  {}

  lemma FailedSpelled()
    ensures Text(EventName(Failed)) == "\"response.failed\""
  {}

  lemma ErrorSpelled()
    ensures Text(EventName(Error)) == "\"error\""
  {}

  lemma NameQuoted(t: Terminal)
    ensures "\"" + TypeName(t) + "\"" == match t
      case Completed => "\"response.completed\""
      case Incomplete => "\"response.incomplete\""
      case Failed => "\"response.failed\""
      case Error => "\"error\""
  {}

  lemma NameSpelled(t: Terminal)
    ensures Text(EventName(t)) == "\"" + TypeName(t) + "\""
  {
    hide *;
    NameQuoted(t);
    match t
    case Completed => CompletedSpelled();
    case Incomplete => IncompleteSpelled();
    case Failed => FailedSpelled();
    case Error => ErrorSpelled();
  }

  /** What the markers say. */
  lemma MarkerSpelled(m: Marker)
    ensures Text(Bytes(m)) == "\"type\":" + (if m.spaced then " " else "") + "\"" + TypeName(m.terminal) + "\""
  {
    assert Text(TYPE_FIELD) == "\"type\":" && Text([32]) == " " && Text([]) == "";
    NameSpelled(m.terminal);
    var space: seq<byte> := if m.spaced then [32] else [];
    hide EventName, TypeName, Text;
    TextJoins(TYPE_FIELD, space);
    TextJoins(TYPE_FIELD + space, EventName(m.terminal));
  }

  // ---------------------------------------------------------------- markers in a longer stream

  lemma AtExtends(s: seq<byte>, more: seq<byte>, p: nat, b: seq<byte>)
    ensures At(s, p, b) ==> At(s + more, p, b)
    ensures At(s + more, p, b) && p + |b| <= |s| ==> At(s, p, b)
  {
    if p + |b| <= |s| {
      assert (s + more)[p..p + |b|] == s[p..p + |b|];
    }
  }

  lemma AtShifts(front: seq<byte>, s: seq<byte>, p: nat, b: seq<byte>)
    ensures At(front + s, |front| + p, b) <==> At(s, p, b)
  {
    if p + |b| <= |s| {
      assert (front + s)[|front| + p..|front| + p + |b|] == s[p..p + |b|];
    }
  }

  /** A marker that begins earlier also ends earlier: none contains the beginning of another. */
  lemma NoNesting(s: seq<byte>, q: nat, a: Marker, p: nat, b: Marker)
    requires Occurs(s, q, a) && Occurs(s, p, b) && q < p
    ensures q + |Bytes(a)| < p + |Bytes(b)|
  {
    MarkerLength(a);
    MarkerLength(b);
    hide Bytes, Occurs;
    var d := p - q;
    if d < |Bytes(a)| - 1 {
      MarkerByte(s, q, a, d);
      MarkerByte(s, q, a, d + 1);
      MarkerByte(s, p, b, 0);
      MarkerByte(s, p, b, 1);
      MarkerShape(b, 0);
      MarkerShape(a, d);
    }
  }

  /** Once the search has found a marker, more bytes do not change what it finds. */
  lemma FindStable(s: seq<byte>, more: seq<byte>)
    requires FindTerminal(s).Some?
    ensures FindTerminal(s + more) == FindTerminal(s)
  {
    FindTerminalMeets(s);
    var p, t := FindTerminal(s).value.0, FindTerminal(s).value.1;
    hide FindTerminal, Bytes, At;
    var b: Marker :| b.terminal == t && Occurs(s, p, b);
    AtExtends(s, more, p, Bytes(b));
    assert Occurs(s + more, p, b);
    forall q: nat, a: Marker | q < p ensures !Occurs(s + more, q, a) {
      AtExtends(s, more, q, Bytes(a));
      assert !Occurs(s, q, a);
      MarkerWithin(s, p, b);
      if Occurs(s + more, q, a) {
        NoNesting(s + more, q, a, p, b);
      }
    }
    LeftmostIsFound(s + more, p, t);
  }

  lemma MarkerWithin(s: seq<byte>, p: nat, m: Marker)
    requires Occurs(s, p, m)
    ensures p + |Bytes(m)| <= |s|
  {
  }

  /** Shifts a search result by the bytes that the carry left out. */
  function Shift(r: Option<(nat, Terminal)>, dropped: nat): Option<(nat, Terminal)> {
    match r
    case None => None
    case Some((p, t)) => Some((p + dropped, t))
  }

  lemma CarryKeepsMarker(s: seq<byte>, more: seq<byte>, q: nat, m: Marker)
    requires !Occurs(s, q, m)
    ensures var dropped := |s| - |Last(s, MARKER_CARRY)|;
            Occurs(s + more, q, m) ==> q >= dropped && Occurs(Last(s, MARKER_CARRY) + more, q - dropped, m)
  {
    MarkerLength(m);
    hide Bytes;
    var carry := Last(s, MARKER_CARRY);
    var front := s[..|s| - |carry|];
    assert s + more == front + (carry + more);
    AtExtends(s, more, q, Bytes(m));
    if q >= |front| {
      AtShifts(front, carry + more, q - |front|, Bytes(m));
    }
  }

  lemma CarryInventsNone(s: seq<byte>, more: seq<byte>, q: nat, m: Marker)
    requires Occurs(Last(s, MARKER_CARRY) + more, q, m)
    ensures Occurs(s + more, q + |s| - |Last(s, MARKER_CARRY)|, m)
  {
    hide Bytes;
    var carry := Last(s, MARKER_CARRY);
    var front := s[..|s| - |carry|];
    assert s + more == front + (carry + more);
    AtShifts(front, carry + more, q, Bytes(m));
  }

  /** While no marker has been seen, searching the 64-byte carry is as good as searching everything. */
  lemma MarkerCarrySuffices(s: seq<byte>, more: seq<byte>)
    requires FindTerminal(s).None?
    ensures FindTerminal(s + more)
            == Shift(FindTerminal(Last(s, MARKER_CARRY) + more), |s| - |Last(s, MARKER_CARRY)|)
  {
    FindTerminalMeets(s);
    var carry := Last(s, MARKER_CARRY);
    var dropped := |s| - |carry|;
    FindTerminalMeets(carry + more);
    hide FindTerminal, Occurs, Last;
    forall q: nat, m: Marker
      ensures Occurs(s + more, q, m) ==> q >= dropped && Occurs(carry + more, q - dropped, m)
    {
      CarryKeepsMarker(s, more, q, m);
    }
    match FindTerminal(carry + more)
    case None =>
      NothingIsFound(s + more);
    case Some((p, t)) =>
      var m: Marker :| m.terminal == t && Occurs(carry + more, p, m);
      CarryInventsNone(s, more, p, m);
      assert FoundAt(s + more, p + dropped, t);
      forall q: nat, a: Marker | q < p + dropped ensures !Occurs(s + more, q, a) {
        if q >= dropped {
          assert !Occurs(carry + more, q - dropped, a);
        }
      }
      LeftmostIsFound(s + more, p + dropped, t);
  }

  // ---------------------------------------------------------------- boundaries in a longer stream

  lemma BoundaryExtends(s: seq<byte>, more: seq<byte>)
    ensures ContainsBoundary(s) ==> ContainsBoundary(s + more)
  {
    if p :| 0 <= p < |s| && BoundaryAt(s, p) {
      AtExtends(s, more, p, [10, 10]);
      AtExtends(s, more, p, [13, 10, 13, 10]);
      assert BoundaryAt(s + more, p);
    }
  }

  lemma BoundaryShifts(front: seq<byte>, s: seq<byte>, p: nat)
    ensures BoundaryAt(front + s, |front| + p) <==> BoundaryAt(s, p)
  {
    AtShifts(front, s, p, [10, 10]);
    AtShifts(front, s, p, [13, 10, 13, 10]);
  }

  /** After a marker, three carried bytes are enough to notice the end of the event. */
  lemma BoundaryCarrySuffices(s: seq<byte>, more: seq<byte>)
    requires !ContainsBoundary(s)
    ensures ContainsBoundary(Last(s, BOUNDARY_CARRY) + more) <==> ContainsBoundary(s + more)
  {
    var carry := Last(s, BOUNDARY_CARRY);
    var front := s[..|s| - |carry|];
    assert s + more == front + (carry + more);
    if p :| 0 <= p < |carry + more| && BoundaryAt(carry + more, p) {
      BoundaryShifts(front, carry + more, p);
      assert BoundaryAt(s + more, |front| + p);
    } else if p :| 0 <= p < |s + more| && BoundaryAt(s + more, p) {
      AtExtends(s, more, p, [10, 10]);
      AtExtends(s, more, p, [13, 10, 13, 10]);
      assert p < |s| ==> !BoundaryAt(s, p);
      BoundaryShifts(front, carry + more, p - |front|);
    }
  }

  // ---------------------------------------------------------------- the detector

  /** The detector's state after it has seen the bytes `s` without reporting anything. */
  ghost predicate Tracks(d: Detector, s: seq<byte>) {
    match FindTerminal(s)
    case None => d == Detector(Last(s, MARKER_CARRY), None)
    case Some((p, t)) => p <= |s| && !ContainsBoundary(s[p..]) && d == Detector(Last(s[p..], BOUNDARY_CARRY), Some(t))
  }

  lemma FoundWithin(s: seq<byte>)
    ensures FindTerminal(s).Some? ==> FindTerminal(s).value.0 <= |s|
  {
    hide FindTerminal, Bytes;
    FindTerminalMeets(s);
  }

  lemma ObserveWaiting(d: Detector, s: seq<byte>, chunk: seq<byte>)
    requires Tracks(d, s) && FindTerminal(s).Some?
    ensures Observe(d, chunk).1 == Verdict(s + chunk)
    ensures Observe(d, chunk).1.None? ==> Tracks(Observe(d, chunk).0, s + chunk)
  {
    hide FindTerminal, ContainsBoundary, Last;
    var p := FindTerminal(s).value.0;
    FindStable(s, chunk);
    assert (s + chunk)[p..] == s[p..] + chunk;
    BoundaryCarrySuffices(s[p..], chunk);
    LastOfLast(s[p..], chunk, BOUNDARY_CARRY);
  }

  lemma CarrySuffix(s: seq<byte>, chunk: seq<byte>, n: nat, p: nat)
    requires p <= |Last(s, n) + chunk|
    ensures (s + chunk)[p + |s| - |Last(s, n)|..] == (Last(s, n) + chunk)[p..]
  {
    var carry := Last(s, n);
    var front := s[..|s| - |carry|];
    assert s + chunk == front + (carry + chunk);
    hide Last;
    assert (front + (carry + chunk))[|front| + p..] == (carry + chunk)[p..];
  }

  lemma ObserveSearching(d: Detector, s: seq<byte>, chunk: seq<byte>)
    requires Tracks(d, s) && FindTerminal(s).None?
    ensures Observe(d, chunk).1 == Verdict(s + chunk)
    ensures Observe(d, chunk).1.None? ==> Tracks(Observe(d, chunk).0, s + chunk)
  {
    hide FindTerminal, ContainsBoundary, Last;
    MarkerCarrySuffices(s, chunk);
    LastOfLast(s, chunk, MARKER_CARRY);
    var combined := Last(s, MARKER_CARRY) + chunk;
    FoundWithin(combined);
    if FindTerminal(combined).Some? {
      CarrySuffix(s, chunk, MARKER_CARRY, FindTerminal(combined).value.0);
    }
  }

  /** One chunk: the detector reports exactly what a search of everything seen so far reports. */
  lemma ObserveExact(d: Detector, s: seq<byte>, chunk: seq<byte>)
    requires Tracks(d, s)
    ensures Observe(d, chunk).1 == Verdict(s + chunk)
    ensures Observe(d, chunk).1.None? ==> Tracks(Observe(d, chunk).0, s + chunk)
  {
    hide Tracks, Observe, Verdict;
    if FindTerminal(s).Some? {
      ObserveWaiting(d, s, chunk);
    } else {
      ObserveSearching(d, s, chunk);
    }
  }

  /** A verdict, once reached, is final. */
  lemma VerdictStable(s: seq<byte>, more: seq<byte>)
    requires Verdict(s).Some?
    ensures Verdict(s + more) == Verdict(s)
  {
    hide FindTerminal, ContainsBoundary;
    FindStable(s, more);
    var p := FindTerminal(s).value.0;
    assert (s + more)[p..] == s[p..] + more;
    BoundaryExtends(s[p..], more);
  }

  /** Feeds chunks to the detector until it reports; the index of the reporting chunk and its verdict. */
  function Run(d: Detector, chunks: seq<seq<byte>>, i: nat): Option<(nat, Terminal)>
    requires i <= |chunks|
    decreases |chunks| - i
  {
    if i == |chunks| then None
    else
      var step := Observe(d, chunks[i]);
      if step.1.Some? then Some((i, step.1.value)) else Run(step.0, chunks, i + 1)
  }

  /** A report on chunk `n` comes with the first verdict of the stream; silence means there is none. */
  ghost predicate ReportsOnTime(chunks: seq<seq<byte>>, i: nat, r: Option<(nat, Terminal)>) {
    if r.None? then Verdict(Concat(chunks)).None?
    else
      var n := r.value.0;
      && i <= n < |chunks|
      && Verdict(Concat(chunks[..n])).None?
      && Verdict(Concat(chunks[..n + 1])) == Some(r.value.1)
  }

  lemma ConcatNext(chunks: seq<seq<byte>>, i: nat)
    requires i < |chunks|
    ensures Concat(chunks[..i + 1]) == Concat(chunks[..i]) + chunks[i]
  {
    assert chunks[..i + 1][..i] == chunks[..i];
  }

  lemma {:induction false} RunExact(d: Detector, chunks: seq<seq<byte>>, i: nat)
    requires i <= |chunks| && Tracks(d, Concat(chunks[..i])) && Verdict(Concat(chunks[..i])).None?
    ensures ReportsOnTime(chunks, i, Run(d, chunks, i))
    decreases |chunks| - i
  {
    hide Tracks, Observe, Verdict, Concat;
    if i == |chunks| {
      assert chunks[..i] == chunks;
    } else {
      ObserveExact(d, Concat(chunks[..i]), chunks[i]);
      ConcatNext(chunks, i);
      var step := Observe(d, chunks[i]);
      if step.1.None? {
        RunExact(step.0, chunks, i + 1);
      }
    }
  }

  lemma InitiallyTracks()
    ensures Tracks(INITIAL, []) && Verdict([]).None?
  {
    forall q: nat, m: Marker ensures !Occurs([], q, m) {
      MarkerLength(m);
    }
    NothingIsFound([]);
  }

  /**
    For every way of cutting a stream, the detector first reports on the chunk that completes
    the event of the leftmost marker, with the verdict a search of that whole prefix gives, and
    it stays silent exactly when no prefix completes one.
   */
  lemma DetectorExact(chunks: seq<seq<byte>>)
    ensures ReportsOnTime(chunks, 0, Run(INITIAL, chunks, 0))
  {
    InitiallyTracks();
    assert chunks[..0] == [];
    RunExact(INITIAL, chunks, 0);
  }

  lemma {:induction false} LaterVerdict(chunks: seq<seq<byte>>, n: nat)
    requires n <= |chunks| && Verdict(Concat(chunks[..n])).Some?
    ensures Verdict(Concat(chunks)) == Verdict(Concat(chunks[..n]))
    decreases |chunks| - n
  {
    hide Verdict, Concat;
    if n == |chunks| {
      assert chunks[..n] == chunks;
    } else {
      ConcatNext(chunks, n);
      VerdictStable(Concat(chunks[..n]), chunks[n]);
      LaterVerdict(chunks, n + 1);
    }
  }

  function RunVerdict(chunks: seq<seq<byte>>): Option<Terminal> {
    match Run(INITIAL, chunks, 0)
    case None => None
    case Some((_, t)) => Some(t)
  }

  /** Two ways of cutting the same bytes lead to the same verdict, or to none. */
  lemma ChunkingIndependence(a: seq<seq<byte>>, b: seq<seq<byte>>)
    requires Concat(a) == Concat(b)
    ensures RunVerdict(a) == RunVerdict(b) == Verdict(Concat(a))
  {
    hide Verdict, Run;
    DetectorExact(a);
    DetectorExact(b);
    if Run(INITIAL, a, 0).Some? {
      LaterVerdict(a, Run(INITIAL, a, 0).value.0 + 1);
    }
    if Run(INITIAL, b, 0).Some? {
      LaterVerdict(b, Run(INITIAL, b, 0).value.0 + 1);
    }
  }

  /** The detector as the stream uses it, updated in place. */
  class SseTerminalDetector {
    var carry: seq<byte>
    var pending: Option<Terminal>
    ghost var seen: seq<byte>

    /** Nothing has been reported for the bytes seen so far. */
    ghost predicate Silent()
      reads this
    {
      Tracks(Detector(carry, pending), seen)
    }

    constructor ()
      ensures Silent() && seen == []
    {
      carry, pending, seen := [], None, [];
      new;
      InitiallyTracks();
    }

    method ObserveChunk(bytes: seq<byte>) returns (terminal: Option<Terminal>)
      requires Silent()
      modifies this
      ensures seen == old(seen) + bytes
      ensures terminal == Verdict(seen)
      ensures terminal.None? ==> Silent()
    {
      hide Tracks, Verdict;
      ObserveExact(Detector(carry, pending), seen, bytes);
      ghost var expected := Observe(Detector(carry, pending), bytes);
      var combined := carry + bytes;
      seen := seen + bytes;
      if pending.Some? {
        if ContainsBoundary(combined) {
          terminal := pending;
          carry, pending := [], None;
        } else {
          carry := Last(combined, BOUNDARY_CARRY);
          terminal := None;
        }
      } else {
        var found := FindTerminal(combined);
        if found.Some? {
          FoundWithin(combined);
          var after := combined[found.value.0..];
          if ContainsBoundary(after) {
            carry := [];
            terminal := Some(found.value.1);
          } else {
            pending := Some(found.value.1);
            carry := Last(after, BOUNDARY_CARRY);
            terminal := None;
          }
        } else {
          carry := Last(combined, MARKER_CARRY);
          terminal := None;
        }
      }
      assert (Detector(carry, pending), terminal) == expected;
    }
  }
}
