/** The whole trace of a connection, read off its events: what each of them causes, and how each turn is logged. */
module BridgeTrace {
  import opened Base
  import opened Bridge

  // ---------------------------------------------------------------- a connection's history

  /** The turns leased by the first `n` events. */
  function Started(events: seq<Event>, n: nat): nat
    requires n <= |events|
  {
    if n == 0 then 0
    else Started(events, n - 1) + if events[n - 1].Create? && events[n - 1].granted then 1 else 0
  }

  /** The turn that runs after the first `n` events: the last one leased, unless something has ended it. */
  function Running(events: seq<Event>, n: nat): Option<nat>
    requires n <= |events|
  {
    if n == 0 || events[n - 1].Terminal? then None
    else if !events[n - 1].Create? then Running(events, n - 1)
    else if events[n - 1].granted then Some(Started(events, n - 1))
    else None
  }

  predicate BindFails(c: Config, e: Event) { c.bound && e.Create? && e.granted && !e.bind.Accepted? }

  /** Event `k` ends the loop. */
  predicate Stops(c: Config, events: seq<Event>, k: nat)
    requires k < |events|
  {
    match events[k]
    case Shutdown => true
    case Signal(generation) => c.bound && generation > c.generation
    case TurnTimeout => Running(events, k).Some?
    case ClientGone => true
    case UpstreamGone => true
    case Create(granted, _, written) => !granted || BindFails(c, events[k]) || !written
    case FromClient(closes, written) => closes || !written
    case Terminal(_, retry, written) => retry || !written
    case FromUpstream(closes, written) => closes || !written
  }

  /** A turn is over: its log, then its lease. */
  function Over(turn: Option<nat>, outcome: Outcome): seq<Effect> {
    if turn.None? then [] else [Logged(turn.value, outcome), Released(turn.value)]
  }

  /** What event `k` causes. */
  function Causes(c: Config, events: seq<Event>, k: nat): seq<Effect>
    requires k < |events|
  {
    var id := Started(events, k);
    match events[k]
    case Create(granted, bind, _) =>
      Over(Running(events, k), Disconnected)
      + (if !granted then [Refused]
         else
           [Acquired(id, ReasonOf(c, id))]
           + (if !c.bound then [] else if bind.Accepted? then [Bound(id)] else [BindRefused(id)])
           + (if BindFails(c, events[k]) then [] else [Forwarded(id)]))
    case Terminal(outcome, retry, _) => Over(Running(events, k), outcome) + if retry then [] else [Relayed]
    case FromClient(_, _) => [Relayed]
    case FromUpstream(_, _) => [Relayed]
    case _ => []
  }

  function CausedBy(c: Config, events: seq<Event>, n: nat): seq<Effect>
    requires n <= |events|
  { if n == 0 then [] else CausedBy(c, events, n - 1) + Causes(c, events, n - 1) }

  /** How the turn that still runs when the loop ends is logged. */
  function LeavingOutcome(cause: CloseReason): Outcome {
    match cause case Reroute => SessionReroute case Restart => ServiceRestart case Plain => Disconnected
  }

  /** What follows the loop when event `k` has ended it. */
  function Leaving(c: Config, events: seq<Event>, k: nat): seq<Effect>
    requires k < |events|
  {
    var cause := CauseOf(c, events[k]);
    var over := Over(Running(events, k + 1), LeavingOutcome(cause));
    match cause
    case Reroute => [ClosedClient(Reroute), ClosedUpstream] + over
    case Restart => [ClosedClient(Restart)] + over + [ClosedUpstream]
    case Plain => over + [ClosedUpstream, ClosedClient(Plain)]
  }

  predicate GoesOnTo(c: Config, events: seq<Event>, n: nat)
    requires n <= |events|
  { forall k | 0 <= k < n :: !Stops(c, events, k) }

  /** The trace, up to the event that ends the loop, or to the end of the events when the connection is dropped. */
  ghost predicate TraceIs(c: Config, events: seq<Event>, trace: seq<Effect>) {
    || (exists k | 0 <= k < |events| ::
          && GoesOnTo(c, events, k) && Stops(c, events, k)
          && trace == CausedBy(c, events, k + 1) + Leaving(c, events, k))
    || (&& GoesOnTo(c, events, |events|)
        && trace == CausedBy(c, events, |events|)
                    + match Running(events, |events|) case None => [] case Some(id) => [LeaseDropped(id)])
  }

  // ---------------------------------------------------------------- the loop follows its history

  function TurnOf(s: State): Option<nat> { if s.active.None? then None else Some(s.active.value.id) }

  /** The loop's variables after the first `n` events. */
  ghost predicate Follows(c: Config, events: seq<Event>, n: nat, s: State)
    requires n <= |events|
  {
    && s.started == Started(events, n) && !s.restart && !s.reroute
    && s.trace == CausedBy(c, events, n) && TurnOf(s) == Running(events, n)
    && s.next == (if s.started == 0 then Some(c.reason) else None)
  }

  /** The loop's variables when event `k` has ended it. */
  ghost predicate Leaves(c: Config, events: seq<Event>, k: nat, s: State)
    requires k < |events|
  {
    s.trace == CausedBy(c, events, k + 1) && TurnOf(s) == Running(events, k + 1)
        && ClosingOf(s) == CauseOf(c, events[k])
  }

  lemma FinishIsOver(s: State, outcome: Outcome)
    ensures Finish(s, outcome) == s.(active := None, trace := s.trace + Over(TurnOf(s), outcome))
  {}

  lemma CreateCauses(c: Config, events: seq<Event>, k: nat, s: State)
    requires k < |events| && Follows(c, events, k, s) && events[k].Create?
    ensures var (after, stop) := OnEvent(c, s, events[k]);
            && stop == Stops(c, events, k)
            && after.trace == s.trace + Causes(c, events, k)
            && after.started == Started(events, k + 1) && TurnOf(after) == Running(events, k + 1)
            && ClosingOf(after) == CauseOf(c, events[k])
            && (!stop ==> !after.restart && !after.reroute && after.next.None? && after.started > 0)
  {
    FinishIsOver(s, Disconnected);
    hide Finish, Over, CausedBy;
  }

  lemma TerminalCauses(c: Config, events: seq<Event>, k: nat, s: State)
    requires k < |events| && Follows(c, events, k, s) && events[k].Terminal?
    ensures var (after, stop) := OnEvent(c, s, events[k]);
            && stop == Stops(c, events, k)
            && after.trace == s.trace + Causes(c, events, k)
            && after == s.(active := None, trace := after.trace)
  {
    FinishIsOver(s, events[k].terminal);
    hide Finish, Over, CausedBy, OnCreate, Running, Started, ReasonOf;
  }

  lemma OtherCauses(c: Config, events: seq<Event>, k: nat, s: State)
    requires k < |events| && Follows(c, events, k, s) && !events[k].Create? && !events[k].Terminal?
    ensures var (after, stop) := OnEvent(c, s, events[k]);
            && stop == Stops(c, events, k)
            && after.trace == s.trace + Causes(c, events, k)
            && after == s.(trace := after.trace, restart := after.restart, reroute := after.reroute)
            && ClosingOf(after) == CauseOf(c, events[k])
            && (!stop ==> !after.restart && !after.reroute)
  {
    hide Finish, Over, CausedBy, OnCreate, Running, Started, ReasonOf;
  }

  lemma EventFollows(c: Config, events: seq<Event>, k: nat, s: State)
    requires k < |events| && Follows(c, events, k, s)
    ensures var (after, stop) := OnEvent(c, s, events[k]);
            && stop == Stops(c, events, k) && Leaves(c, events, k, after)
            && (!stop ==> Follows(c, events, k + 1, after))
  {
    if events[k].Create? {
      CreateCauses(c, events, k, s);
    } else if events[k].Terminal? {
      TerminalCauses(c, events, k, s);
      assert Running(events, k + 1) == None && CauseOf(c, events[k]) == Plain && ClosingOf(s) == Plain;
    } else {
      OtherCauses(c, events, k, s);
      assert Running(events, k + 1) == Running(events, k);
    }
    assert CausedBy(c, events, k + 1) == CausedBy(c, events, k) + Causes(c, events, k);
    assert !events[k].Create? ==> Started(events, k + 1) == Started(events, k);
    hide OnEvent, Causes, Stops, Running, Started, CausedBy, ClosingOf, CauseOf;
  }

  lemma WindLeaves(c: Config, events: seq<Event>, k: nat, s: State)
    requires k < |events| && Leaves(c, events, k, s)
    ensures Wind(s).trace == CausedBy(c, events, k + 1) + Leaving(c, events, k)
  {
    hide CausedBy, CauseOf, Running, Finish, Over;
    FinishIsOver(s.(trace := s.trace + [ClosedClient(Reroute), ClosedUpstream]), SessionReroute);
    FinishIsOver(s.(trace := s.trace + [ClosedClient(Restart)]), ServiceRestart);
    FinishIsOver(s, Disconnected);
  }

  lemma {:induction false} LiveFollows(c: Config, events: seq<Event>, n: nat, s: State)
    requires n <= |events| && Follows(c, events, n, s) && GoesOnTo(c, events, n)
    ensures TraceIs(c, events, Live(c, s, events[n..]).trace)
    decreases |events| - n
  {
    if n < |events| {
      assert events[n..][0] == events[n] && events[n..][1..] == events[n + 1..];
      EventFollows(c, events, n, s);
      var (after, stop) := OnEvent(c, s, events[n]);
      hide OnEvent, Wind, Leaving, CausedBy, Follows, Leaves, Running;
      if stop {
        WindLeaves(c, events, n, after);
      } else {
        LiveFollows(c, events, n + 1, after);
      }
    }
  }

  /** The trace of a connection is what its events cause, one after the other, and what ending it causes. */
  lemma TraceExactly(c: Config, events: seq<Event>)
    ensures TraceIs(c, events, Live(c, Opening(c), events).trace)
  {
    hide TraceIs;
    assert events[0..] == events;
    LiveFollows(c, events, 0, Opening(c));
  }

  // ---------------------------------------------------------------- how turns are logged

  /** Turn `id` is over with event `j`, while the loop goes on or as it ends, and so it is logged. */
  ghost predicate OverWith(c: Config, events: seq<Event>, id: nat, j: nat, outcome: Outcome) {
    && j < |events| && GoesOnTo(c, events, j)
    && (|| (Running(events, j) == Some(id) && events[j].Terminal? && outcome == events[j].terminal)
        || (Running(events, j) == Some(id) && events[j].Create? && outcome == Disconnected)
        || (Running(events, j + 1) == Some(id) && Stops(c, events, j)
            && outcome == LeavingOutcome(CauseOf(c, events[j]))))
  }

  lemma CausesLogs(c: Config, events: seq<Event>, k: nat, id: nat, outcome: Outcome)
    requires k < |events|
    ensures Logged(id, outcome) in Causes(c, events, k) <==>
              Running(events, k) == Some(id)
              && ((events[k].Terminal? && outcome == events[k].terminal) || (events[k].Create?
                  && outcome == Disconnected))
  {
    hide Running, Started;
  }

  lemma {:induction false} CausedLogs(c: Config, events: seq<Event>, n: nat, id: nat, outcome: Outcome)
    requires n <= |events|
    ensures Logged(id, outcome) in CausedBy(c, events, n) <==>
              exists k | 0 <= k < n :: Logged(id, outcome) in Causes(c, events, k)
  {
    hide Causes;
    if n > 0 {
      CausedLogs(c, events, n - 1, id, outcome);
    }
  }

  lemma LeavingLogs(c: Config, events: seq<Event>, k: nat, id: nat, outcome: Outcome)
    requires k < |events|
    ensures Logged(id, outcome) in Leaving(c, events, k) <==>
              Running(events, k + 1) == Some(id) && outcome == LeavingOutcome(CauseOf(c, events[k]))
  {
    hide Running, CauseOf;
  }

  lemma LogsInCaused(c: Config, events: seq<Event>, n: nat, id: nat, outcome: Outcome)
    requires n <= |events|
    ensures Logged(id, outcome) in CausedBy(c, events, n) <==>
              exists k | 0 <= k < n ::
                Running(events, k) == Some(id)
                && ((events[k].Terminal? && outcome == events[k].terminal)
                    || (events[k].Create? && outcome == Disconnected))
  {
    hide *;
    CausedLogs(c, events, n, id, outcome);
    forall k: nat | k < n
      ensures Logged(id, outcome) in Causes(c, events, k) <==>
                Running(events, k) == Some(id)
                && ((events[k].Terminal? && outcome == events[k].terminal)
                    || (events[k].Create? && outcome == Disconnected))
    {
      CausesLogs(c, events, k, id, outcome);
    }
  }

  lemma LoggedIfStopped(c: Config, events: seq<Event>, k: nat, trace: seq<Effect>, id: nat, outcome: Outcome)
    requires k < |events| && GoesOnTo(c, events, k) && Stops(c, events, k)
    requires trace == CausedBy(c, events, k + 1) + Leaving(c, events, k)
    ensures Logged(id, outcome) in trace <==> exists j :: OverWith(c, events, id, j, outcome)
  {
    hide Running, Started, Stops, CausedBy, Leaving, CauseOf, LeavingOutcome;
    LogsInCaused(c, events, k + 1, id, outcome);
    LeavingLogs(c, events, k, id, outcome);
    forall j: nat | j <= k ensures GoesOnTo(c, events, j) {}
    forall j: nat | j < |events| && GoesOnTo(c, events, j) ensures j <= k && (Stops(c, events, j) ==> j == k) {}
    if Logged(id, outcome) in Leaving(c, events, k) {
      assert OverWith(c, events, id, k, outcome);
    } else if j :| && 0 <= j < k + 1 && Running(events, j) == Some(id)
                   && ((events[j].Terminal? && outcome == events[j].terminal)
                       || (events[j].Create? && outcome == Disconnected)) {
      assert OverWith(c, events, id, j, outcome);
    }
  }

  lemma LoggedIfDropped(c: Config, events: seq<Event>, trace: seq<Effect>, id: nat, outcome: Outcome)
    requires GoesOnTo(c, events, |events|)
    requires trace == CausedBy(c, events, |events|)
                      + match Running(events, |events|) case None => [] case Some(id) => [LeaseDropped(id)]
    ensures Logged(id, outcome) in trace <==> exists j :: OverWith(c, events, id, j, outcome)
  {
    hide Running, Started, Stops, CausedBy, CauseOf, LeavingOutcome;
    LogsInCaused(c, events, |events|, id, outcome);
    assert Logged(id, outcome) in trace <==> Logged(id, outcome) in CausedBy(c, events, |events|);
    forall j: nat | j < |events| ensures GoesOnTo(c, events, j) && !Stops(c, events, j) {}
    if j :| && 0 <= j < |events| && Running(events, j) == Some(id)
            && ((events[j].Terminal? && outcome == events[j].terminal)
                || (events[j].Create? && outcome == Disconnected)) {
      assert OverWith(c, events, id, j, outcome);
    }
  }

  /**
    A turn is logged exactly as it ended: with the terminal event's own outcome, as disconnected when the
    next request or anything else took its place, and as rerouted or restarted when that ended the loop.
   */
  lemma LoggedAsEnded(c: Config, events: seq<Event>, id: nat, outcome: Outcome)
    ensures Logged(id, outcome) in Live(c, Opening(c), events).trace <==>
              exists j :: OverWith(c, events, id, j, outcome)
  {
    TraceExactly(c, events);
    var trace := Live(c, Opening(c), events).trace;
    hide Live, Running, Started, Stops, CausedBy, Leaving, CauseOf, LeavingOutcome, GoesOnTo, OverWith;
    if k :| && 0 <= k < |events| && GoesOnTo(c, events, k) && Stops(c, events, k)
            && trace == CausedBy(c, events, k + 1) + Leaving(c, events, k)
    {
      LoggedIfStopped(c, events, k, trace, id, outcome);
    } else {
      LoggedIfDropped(c, events, trace, id, outcome);
    }
  }
}
