/** The body of a streamed response: passed on unchanged, logged once, its lease given back once. */
module ResponseStream {
  import opened Base
  import opened TailCapture
  import opened Sse
  import opened SseStream
  import opened Leases

  const SSE_CAPTURE_LIMIT: nat := 1024 * 1024

  datatype Event = Chunk(bytes: seq<byte>) | Broken

  /** Whether the client takes the whole body, stops after the last event, or goes away while a log is written. */
  datatype Client = Stays | Leaves | LeavesInLog(stored: bool)

  /** One request log: its outcome, and the bytes its usage figures are read from. */
  datatype Line = Line(error: Option<string>, captured: seq<byte>)

  function ErrorOf(t: Terminal): Option<string> {
    match t
    case Completed => None
    case Incomplete => Some("response_incomplete")
    case Failed => Some("response_failed")
    case Error => Some("upstream_error")
  }

  /** The chunks before the first failure. */
  function Chunks(events: seq<Event>): (r: seq<seq<byte>>)
    ensures |r| <= |events|
  {
    if events == [] || events[0].Broken? then [] else [events[0].bytes] + Chunks(events[1..])
  }

  predicate Breaks(events: seq<Event>) { exists e | e in events :: e.Broken? }

  /** Chunk `n` completes the first terminal event of the stream. */
  ghost predicate SettlesAt(chunks: seq<seq<byte>>, n: nat, t: Terminal) {
    && n < |chunks|
    && Verdict(Concat(chunks[..n])).None?
    && Verdict(Concat(chunks[..n + 1])) == Some(t)
  }

  /** The single line the stream leaves: at the first terminal event, or when it ends without one. */
  ghost predicate RightLine(events: seq<Event>, line: Line) {
    var chunks := Chunks(events);
    match Verdict(Concat(chunks))
    case Some(t) =>
      && line.error == ErrorOf(t)
      && exists n: nat :: SettlesAt(chunks, n, t) && line.captured == Last(Concat(chunks[..n + 1]), SSE_CAPTURE_LIMIT)
    case None =>
      && line.error == (if Breaks(events) then Some("upstream_stream_error") else None)
      && line.captured == Last(Concat(chunks), SSE_CAPTURE_LIMIT)
  }

  // ---------------------------------------------------------------- lemmas

  /** Dots as underscores. */
  function Underscored(s: string): string {
    seq(|s|, i requires 0 <= i < |s| => if s[i] == '.' then '_' else s[i])
  }

  /** The code a terminal event is logged with comes from its type: none for a completed response. */
  lemma ErrorByType(t: Terminal)
    ensures ErrorOf(t).None? <==> TypeName(t) == "response.completed"
    ensures TypeName(t) == "response.incomplete" || TypeName(t) == "response.failed" <==>
              ErrorOf(t) == Some(Underscored(TypeName(t)))
    ensures TypeName(t) == "error" <==> ErrorOf(t) == Some("upstream_error")
  {
    match t
    case Completed =>
    case Incomplete => assert Underscored("response.incomplete") == "response_incomplete";
    case Failed => assert Underscored("response.failed") == "response_failed";
    case Error => assert Underscored("error")[0] == 'e';
  }

  /** The chunks of a stream are those of its events before the first failure. */
  lemma {:induction false} ChunksExactly(events: seq<Event>, i: nat)
    ensures i < |Chunks(events)| <==> i < |events| && forall k | 0 <= k <= i :: events[k].Chunk?
    ensures i < |Chunks(events)| ==> Chunks(events)[i] == events[i].bytes
  {
    if events != [] && events[0].Chunk? && i > 0 {
      ChunksExactly(events[1..], i - 1);
      assert forall k | 0 < k <= i && k < |events| :: events[k] == events[1..][k - 1];
    }
  }

  ghost predicate NoEvent(s: seq<byte>) { forall t :: !FirstEventIs(s, t) }

  /** The one line of a stream, by its bytes. */
  lemma LineTells(events: seq<Event>, line: Line)
    requires RightLine(events, line)
    ensures var s := Concat(Chunks(events));
            && (forall t | FirstEventIs(s, t) :: line.error == ErrorOf(t))
            && (NoEvent(s) ==>
                  && line.error == (if Breaks(events) then Some("upstream_stream_error") else None)
                  && line.captured == Last(s, SSE_CAPTURE_LIMIT))
  {
    var s := Concat(Chunks(events));
    hide Verdict, Concat, Last, FirstEventIs, ErrorOf, Breaks, SettlesAt;
    forall t ensures Verdict(s) == Some(t) <==> FirstEventIs(s, t) {
      VerdictExactly(s, t);
    }
    if Verdict(s).Some? {
      assert !NoEvent(s) by { assert FirstEventIs(s, Verdict(s).value); }
    }
  }

  lemma {:induction false} ChunksSplit(events: seq<Event>, i: nat)
    requires i <= |events| && forall k | 0 <= k < i :: events[k].Chunk?
    ensures |Chunks(events)| >= i
    ensures Chunks(events) == Chunks(events)[..i] + Chunks(events[i..])
    ensures i == |events| ==> |Chunks(events)| == i && !Breaks(events)
    ensures i < |events| && events[i].Broken? ==> |Chunks(events)| == i && Breaks(events)
    ensures i < |events| && events[i].Chunk? ==> |Chunks(events)| > i && Chunks(events)[i] == events[i].bytes
  {
    if i == 0 {
      assert events[0..] == events;
    } else {
      assert events[1..][i - 1..] == events[i..];
      ChunksSplit(events[1..], i - 1);
      assert Chunks(events) == [events[0].bytes] + Chunks(events[1..]);
      assert events == [events[0]] + events[1..];
    }
  }

  lemma SettledLine(events: seq<Event>, n: nat, t: Terminal)
    requires SettlesAt(Chunks(events), n, t)
    ensures RightLine(events, Line(ErrorOf(t), Last(Concat(Chunks(events)[..n + 1]), SSE_CAPTURE_LIMIT)))
  {
    hide Verdict, Concat, Last;
    LaterVerdict(Chunks(events), n + 1);
  }

  lemma UnsettledLine(events: seq<Event>, error: Option<string>)
    requires Verdict(Concat(Chunks(events))).None?
    requires error == if Breaks(events) then Some("upstream_stream_error") else None
    ensures RightLine(events, Line(error, Last(Concat(Chunks(events)), SSE_CAPTURE_LIMIT)))
  {}

  // ---------------------------------------------------------------- the stream

  /** Before any log the detector has seen, and the ring holds the end of, everything that came in. */
  ghost predicate Watching(lease: AccountLease, capture: Capture, detector: SseTerminalDetector, seen: seq<seq<byte>>)
    reads lease, capture, detector
  {
    && lease.Valid() && lease.armed
    && capture.Valid() && capture.capacity == SSE_CAPTURE_LIMIT
    && capture.ToVec() == Last(Concat(seen), SSE_CAPTURE_LIMIT)
    && detector.Silent() && detector.seen == Concat(seen) && Verdict(Concat(seen)).None?
  }

  /** One chunk, seen by the ring and the detector before it is passed on. */
  method Watch(lease: AccountLease, capture: Capture, detector: SseTerminalDetector, bytes: seq<byte>,
      ghost seen: seq<seq<byte>>)
    returns (terminal: Option<Terminal>)
    requires Watching(lease, capture, detector, seen)
    modifies capture, detector
    ensures terminal == Verdict(Concat(seen + [bytes]))
    ensures terminal.None? ==> Watching(lease, capture, detector, seen + [bytes])
    ensures capture.Valid() && capture.ToVec() == Last(Concat(seen + [bytes]), SSE_CAPTURE_LIMIT)
  {
    ghost var now := seen + [bytes];
    assert Concat(now) == Concat(seen) + bytes by {
      assert now[..|now| - 1] == seen;
    }
    hide Concat, Last, Verdict;
    LastOfLast(Concat(seen), bytes, SSE_CAPTURE_LIMIT);
    capture.Push(bytes);
    terminal := detector.ObserveChunk(bytes);
  }

  /** Writes the line and gives the lease back, unless the client leaves in between. */
  method Settle(lease: AccountLease, line: Line, client: Client) returns (logs: seq<Line>)
    requires lease.Valid() && lease.armed
    modifies lease
    ensures lease.Valid() && !lease.armed
    ensures logs == if client == LeavesInLog(false) then [] else [line]
  {
    logs := if client == LeavesInLog(false) then [] else [line];
    if client.LeavesInLog? {
      lease.Drop();
    } else {
      lease.Release();
    }
  }

  ghost predicate RightLog(events: seq<Event>, logs: seq<Line>) {
    |logs| <= 1 && (logs != [] ==> RightLine(events, logs[0]))
  }

  /** What has been passed on when `i` chunks were taken, and the log once the stream is settled. */
  ghost predicate Passed(events: seq<Event>, i: nat, delivered: seq<seq<byte>>, settled: bool, logs: seq<Line>) {
    && i <= |Chunks(events)|
    && delivered == Chunks(events)[..i]
    && RightLog(events, logs)
    && (logs != [] <==> settled)
    && (settled ==> Verdict(Concat(Chunks(events))).Some?)
  }

  lemma PassedStep(events: seq<Event>, i: nat, delivered: seq<seq<byte>>, settled: bool, logs: seq<Line>)
    requires Passed(events, i, delivered, settled, logs)
    requires i < |events| && forall k | 0 <= k <= i :: events[k].Chunk?
    ensures i < |Chunks(events)| && events[i].bytes == Chunks(events)[i] && delivered == Chunks(events)[..i]
    ensures delivered + [events[i].bytes] == Chunks(events)[..i + 1]
    ensures Passed(events, i + 1, delivered + [events[i].bytes], settled, logs)
  {
    ChunksSplit(events, i);
    hide Concat, Verdict, RightLog, Chunks;
  }

  lemma PassedSettled(events: seq<Event>, i: nat, delivered: seq<seq<byte>>, logs: seq<Line>)
    requires Passed(events, i, delivered, false, [])
    requires RightLog(events, logs) && logs != [] && Verdict(Concat(Chunks(events))).Some?
    ensures Passed(events, i, delivered, true, logs)
  {
    hide Concat, Verdict, RightLog;
  }

  lemma PassedEnd(events: seq<Event>, i: nat, delivered: seq<seq<byte>>, settled: bool, logs: seq<Line>)
    requires Passed(events, i, delivered, settled, logs)
    requires i <= |events| && (forall k | 0 <= k < i :: events[k].Chunk?) && (i < |events| ==> events[i].Broken?)
    ensures delivered == Chunks(events) && (i < |events| <==> Breaks(events))
  {
    ChunksSplit(events, i);
  }

  lemma PassedStart(events: seq<Event>)
    ensures Passed(events, 0, [], false, [])
  {}

  /** A chunk before the log: when it completes a terminal event, the line is written. */
  method TakeChunk(lease: AccountLease, capture: Capture, detector: SseTerminalDetector,
                   ghost events: seq<Event>, ghost i: nat, bytes: seq<byte>, client: Client)
    returns (settled: bool, logs: seq<Line>)
    requires i < |Chunks(events)| && bytes == Chunks(events)[i]
    requires Watching(lease, capture, detector, Chunks(events)[..i])
    modifies lease, capture, detector
    ensures !settled ==> Watching(lease, capture, detector, Chunks(events)[..i + 1]) && logs == []
    ensures settled ==> lease.Valid() && !lease.armed && Verdict(Concat(Chunks(events))).Some?
    ensures settled ==> RightLog(events, logs) && (logs == [] <==> client == LeavesInLog(false))
    ensures settled ==> exists t :: SettlesAt(Chunks(events), i, t)
  {
    ghost var seen, now := Chunks(events)[..i], Chunks(events)[..i + 1];
    assert now == seen + [bytes];
    hide Chunks, Concat, Verdict, Last, RightLine;
    var terminal := Watch(lease, capture, detector, bytes, seen);
    settled, logs := terminal.Some?, [];
    if settled {
      assert SettlesAt(Chunks(events), i, terminal.value);
      SettledLine(events, i, terminal.value);
      LaterVerdict(Chunks(events), i + 1);
      logs := Settle(lease, Line(ErrorOf(terminal.value), capture.ToVec()), client);
    }
  }

  /** After the last chunk: the end of the stream, or its failure, is logged unless the client has left. */
  method Finish(lease: AccountLease, capture: Capture, ghost detector: SseTerminalDetector,
                ghost events: seq<Event>, broken: bool, client: Client)
    returns (logs: seq<Line>)
    requires Watching(lease, capture, detector, Chunks(events)) && broken == Breaks(events)
    modifies lease
    ensures lease.Valid() && !lease.armed && RightLog(events, logs)
    ensures logs == [] <==> (!broken && client.Leaves?) || client == LeavesInLog(false)
    ensures Verdict(Concat(Chunks(events))).None?
  {
    if !broken && client.Leaves? {
      lease.Drop();
      logs := [];
    } else {
      var error := if broken then Some("upstream_stream_error") else None;
      UnsettledLine(events, error);
      hide RightLine, Chunks, Concat, Verdict, Last;
      logs := Settle(lease, Line(error, capture.ToVec()), client);
    }
  }

  method Open(lease: AccountLease) returns (capture: Capture, detector: SseTerminalDetector)
    requires lease.Valid() && lease.armed
    ensures fresh(capture) && fresh(detector) && Watching(lease, capture, detector, [])
  {
    capture := new Capture(SSE_CAPTURE_LIMIT);
    detector := new SseTerminalDetector();
    InitiallyTracks();
  }

  /** Halfway: `i` chunks taken and passed on; settled with its lease back, or still being watched. */
  ghost predicate Going(lease: AccountLease, capture: Capture, detector: SseTerminalDetector,
                        events: seq<Event>, i: nat, delivered: seq<seq<byte>>, settled: bool, logs: seq<Line>)
    reads lease, capture, detector
  {
    && i <= |events| && (forall k | 0 <= k < i :: events[k].Chunk?)
    && Passed(events, i, delivered, settled, logs)
    && (if settled then lease.Valid() && !lease.armed else Watching(lease, capture, detector, delivered))
  }

  /** A client that left while the line was written has what came before the chunk that settled it, or everything. */
  ghost predicate LeftAtLog(events: seq<Event>, delivered: seq<seq<byte>>) {
    var chunks := Chunks(events);
    || (exists n: nat, t :: SettlesAt(chunks, n, t) && delivered == chunks[..n])
    || (delivered == chunks && Verdict(Concat(chunks)).None?)
  }

  /** What the whole body leaves behind. */
  ghost predicate Delivered(lease: AccountLease, events: seq<Event>, client: Client,
                            delivered: seq<seq<byte>>, logs: seq<Line>)
    reads lease
  {
    && lease.Valid() && !lease.armed
    && delivered <= Chunks(events) && RightLog(events, logs)
    && (client.Stays? ==> logs != [])
    && (client.LeavesInLog? ==> (logs != [] <==> client.stored) && LeftAtLog(events, delivered))
    && (!client.LeavesInLog? ==> delivered == Chunks(events))
    && (client.Leaves? ==> (logs == [] <==> !Breaks(events) && Verdict(Concat(Chunks(events))).None?))
  }

  /** One chunk of the stream; `left` when the client went away while its log was written. */
  method TakeNext(lease: AccountLease, capture: Capture, detector: SseTerminalDetector,
                  events: seq<Event>, i: nat, delivered: seq<seq<byte>>, settled: bool, logs: seq<Line>, client: Client)
    returns (nowSettled: bool, line: seq<Line>, left: bool)
    requires i < |events| && events[i].Chunk? && Going(lease, capture, detector, events, i, delivered, settled, logs)
    modifies lease, capture, detector
    ensures left ==> Delivered(lease, events, client, delivered, line)
    ensures !left && client.LeavesInLog? ==> nowSettled == settled
    ensures !left ==>
              Going(lease, capture, detector, events, i + 1, delivered + [events[i].bytes], nowSettled, line)
  {
    PassedStep(events, i, delivered, settled, logs);
    hide Chunks, Concat, Verdict, Last, RightLine, Breaks, Watching, RightLog;
    nowSettled, line, left := settled, logs, false;
    if !settled {
      assert logs == [];
      hide Passed;
      nowSettled, line := TakeChunk(lease, capture, detector, events, i, events[i].bytes, client);
      left := nowSettled && client.LeavesInLog?;
      if nowSettled && !left {
        PassedSettled(events, i + 1, delivered + [events[i].bytes], line);
      }
    }
  }

  /** The end of the stream or its first failure. */
  method Conclude(lease: AccountLease, capture: Capture, ghost detector: SseTerminalDetector,
                  events: seq<Event>, i: nat, ghost delivered: seq<seq<byte>>, settled: bool, logs: seq<Line>,
                  client: Client)
    returns (line: seq<Line>)
    requires Going(lease, capture, detector, events, i, delivered, settled, logs)
    requires i < |events| ==> events[i].Broken?
    requires client.LeavesInLog? ==> !settled
    modifies lease
    ensures Delivered(lease, events, client, delivered, line)
  {
    PassedEnd(events, i, delivered, settled, logs);
    hide Chunks, Concat, Verdict, Last, RightLine, Breaks, Watching, RightLog;
    line := logs;
    if !settled {
      line := Finish(lease, capture, detector, events, i < |events|, client);
    }
  }

  method Begin(lease: AccountLease, ghost events: seq<Event>) returns (capture: Capture, detector: SseTerminalDetector)
    requires lease.Valid() && lease.armed
    ensures fresh(capture) && fresh(detector) && Going(lease, capture, detector, events, 0, [], false, [])
  {
    PassedStart(events);
    hide Chunks, Concat, Verdict, Last, RightLine, Breaks, Watching, RightLog, Passed;
    capture, detector := Open(lease);
  }

  /**
   * The whole body. Its lease is given back exactly once whatever happens; what is passed on is what came in,
   * in order; at most one line is written, always the right one, and exactly one for a client that stays.
   */
  method StreamBody(lease: AccountLease, events: seq<Event>, client: Client)
    returns (delivered: seq<seq<byte>>, logs: seq<Line>)
    requires lease.Valid() && lease.armed
    modifies lease
    ensures Delivered(lease, events, client, delivered, logs)
  {
    var capture, detector := Begin(lease, events);
    var settled, i := false, 0;
    delivered, logs := [], [];
    hide *;
    while i < |events| && events[i].Chunk?
      invariant 0 <= i <= |events| && fresh(capture) && fresh(detector)
      invariant Going(lease, capture, detector, events, i, delivered, settled, logs)
      invariant client.LeavesInLog? ==> !settled
    {
      var left;
      settled, logs, left := TakeNext(lease, capture, detector, events, i, delivered, settled, logs, client);
      if left {
        return;
      }
      delivered := delivered + [events[i].bytes];
      i := i + 1;
    }
    logs := Conclude(lease, capture, detector, events, i, delivered, settled, logs, client);
  }
}
