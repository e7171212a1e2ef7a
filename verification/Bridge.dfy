/**
 * The WebSocket bridge: one loop over client, upstream and control events that starts and ends turns.
 * Its effects are judged by an automaton that knows what may follow what on one connection.
 */
module Bridge {
  import opened Base

  datatype Reason = UsageWeighted | RoundRobin | Sticky | Failover | WebsocketReuse

  datatype Outcome = Success | Incomplete | Failed | UpstreamError | Disconnected | SessionReroute | ServiceRestart

  /** How an upstream event can end a turn. */
  type TerminalOutcome = o: Outcome | o.Success? || o.Incomplete? || o.Failed? || o.UpstreamError? witness Success

  datatype CloseReason = Reroute | Restart | Plain

  datatype Effect =
    | Acquired(id: nat, reason: Reason)
    | Refused
    | Bound(id: nat)
    | BindRefused(id: nat)
    | Forwarded(id: nat)
    | Relayed
    | Logged(id: nat, outcome: Outcome)
    | Released(id: nat)
    | LeaseDropped(id: nat)
    | ClosedClient(close: CloseReason)
    | ClosedUpstream

  /** `bound` is whether the connection has affinities, and so is registered and binds before it forwards. */
  datatype Config = Config(bound: bool, generation: int, reason: Reason)

  datatype BindResult = Accepted | Stale | Broken

  /** One turn of the loop, with what the database and the sockets answer in it. */
  datatype Event =
    | Shutdown
    | Signal(generation: int)
    | TurnTimeout
    | ClientGone
    | Create(granted: bool, bind: BindResult, written: bool)
    | FromClient(closes: bool, written: bool)
    | UpstreamGone
    | Terminal(terminal: TerminalOutcome, retry: bool, written: bool)
    | FromUpstream(closes: bool, written: bool)

  datatype Turn = Turn(id: nat, reason: Reason)

  datatype State = State(
    trace: seq<Effect>,
    active: Option<Turn>,
    started: nat,
    next: Option<Reason>,
    restart: bool,
    reroute: bool)

  // ---------------------------------------------------------------- what each event does

  /** Ends a turn: its log, then its lease. */
  function Finish(s: State, outcome: Outcome): State {
    match s.active
    case None => s
    case Some(turn) => s.(active := None, trace := s.trace + [Logged(turn.id, outcome), Released(turn.id)])
  }

  /** A `response.create`: the old turn ends, a new one is leased and bound, and only then is it forwarded. */
  function OnCreate(c: Config, s: State, granted: bool, bind: BindResult, written: bool): (State, bool) {
    var s1 := Finish(s, Disconnected);
    var reason := if s1.next.Some? then s1.next.value else WebsocketReuse;
    var s2 := s1.(next := None);
    if !granted then (s2.(trace := s2.trace + [Refused]), true)
    else
      var id := s2.started;
      var s3 := s2.(active := Some(Turn(id, reason)), started := id + 1, trace := s2.trace + [Acquired(id, reason)]);
      if !c.bound then (s3.(trace := s3.trace + [Forwarded(id)]), !written)
      else
        match bind
        case Accepted => (s3.(trace := s3.trace + [Bound(id)] + [Forwarded(id)]), !written)
        case Stale => (s3.(trace := s3.trace + [BindRefused(id)], reroute := true), true)
        case Broken => (s3.(trace := s3.trace + [BindRefused(id)]), true)
  }

  /** The new state, and whether the loop ends. A turn deadline exists only while there is a turn. */
  function OnEvent(c: Config, s: State, e: Event): (State, bool) {
    match e
    case Shutdown => (s.(restart := true), true)
    case Signal(generation) => if c.bound && generation > c.generation then (s.(reroute := true), true) else (s, false)
    case TurnTimeout => (s, s.active.Some?)
    case ClientGone => (s, true)
    case UpstreamGone => (s, true)
    case Create(granted, bind, written) => OnCreate(c, s, granted, bind, written)
    case FromClient(closes, written) => (s.(trace := s.trace + [Relayed]), closes || !written)
    case Terminal(terminal, retry, written) =>
      var s1 := Finish(s, terminal);
      if retry then (s1, true) else (s1.(trace := s1.trace + [Relayed]), !written)
    case FromUpstream(closes, written) => (s.(trace := s.trace + [Relayed]), closes || !written)
  }

  /** After the loop: a reconnecting client is told before anything is logged. */
  function Wind(s: State): State {
    if s.reroute then
      Finish(s.(trace := s.trace + [ClosedClient(Reroute), ClosedUpstream]), SessionReroute)
    else if s.restart then
      var s1 := Finish(s.(trace := s.trace + [ClosedClient(Restart)]), ServiceRestart);
      s1.(trace := s1.trace + [ClosedUpstream])
    else
      var s1 := Finish(s, Disconnected);
      s1.(trace := s1.trace + [ClosedUpstream, ClosedClient(Plain)])
  }

  /** The connection is dropped between two events: its turn's lease goes with it, without a log. */
  function Abort(s: State): State {
    match s.active
    case None => s
    case Some(turn) => s.(active := None, trace := s.trace + [LeaseDropped(turn.id)])
  }

  function Opening(c: Config): State { State([], None, 0, Some(c.reason), false, false) }

  /** The rest of a connection's life from a state of its loop. */
  function Live(c: Config, s: State, events: seq<Event>): State
    decreases |events|
  {
    if events == [] then Abort(s)
    else
      var (after, stop) := OnEvent(c, s, events[0]);
      if stop then Wind(after) else Live(c, after, events[1..])
  }

  // ---------------------------------------------------------------- what a connection may do

  datatype Stage = Leased | Ready | Running | Stuck | Written

  /** Between turns, or inside one; `closing` once the client has been told to leave. */
  datatype Phase =
    | Idle(turns: nat, closing: Option<CloseReason>)
    | InTurn(turn: nat, stage: Stage, closing: Option<CloseReason>)
    | Wrong

  predicate LogFits(outcome: Outcome, closing: Option<CloseReason>) {
    match outcome
    case SessionReroute => closing == Some(Reroute)
    case ServiceRestart => closing == Some(Restart)
    case _ => closing == None
  }

  function ReasonOf(c: Config, id: nat): Reason { if id == 0 then c.reason else WebsocketReuse }

  /** What one effect may follow. */
  function Follow(c: Config, p: Phase, e: Effect): Phase {
    match e
    case Acquired(id, reason) =>
      if p.Idle? && p.closing.None? && id == p.turns && reason == ReasonOf(c, id) then InTurn(id, Leased, None)
      else Wrong
    case Refused => if p.Idle? && p.closing.None? then p else Wrong
    case Bound(id) => if c.bound && p == InTurn(id, Leased, None) then InTurn(id, Ready, None) else Wrong
    case BindRefused(id) => if c.bound && p == InTurn(id, Leased, None) then InTurn(id, Stuck, None) else Wrong
    case Forwarded(id) =>
      if p == InTurn(id, if c.bound then Ready else Leased, None) then InTurn(id, Running, None) else Wrong
    case Relayed => if !p.Wrong? && p.closing.None? && (p.Idle? || p.stage.Running?) then p else Wrong
    case Logged(id, outcome) =>
      if p.InTurn? && p.turn == id && !p.stage.Written? && LogFits(outcome, p.closing) then
        InTurn(id, Written, p.closing)
      else Wrong
    case Released(id) => if p.InTurn? && p.turn == id && p.stage.Written? then Idle(id + 1, p.closing) else Wrong
    case LeaseDropped(id) => if p.InTurn? && p.turn == id && !p.stage.Written? then Idle(id + 1, p.closing) else Wrong
    case ClosedClient(close) => Close(p, close)
    case ClosedUpstream => if p.Idle? || (p.InTurn? && p.closing.Some?) then p else Wrong
  }

  /** The client is told to leave once. */
  function Close(p: Phase, close: CloseReason): Phase {
    match p
    case Idle(turns, None) => Idle(turns, Some(close))
    case InTurn(turn, stage, None) => InTurn(turn, stage, Some(close))
    case _ => Wrong
  }

  function After(c: Config, trace: seq<Effect>): Phase {
    if trace == [] then Idle(0, None) else Follow(c, After(c, trace[..|trace| - 1]), trace[|trace| - 1])
  }

  // ---------------------------------------------------------------- the loop keeps to the automaton

  lemma AfterStep(c: Config, trace: seq<Effect>, e: Effect)
    ensures After(c, trace + [e]) == Follow(c, After(c, trace), e)
  {
    assert (trace + [e])[..|trace|] == trace;
  }

  lemma AfterTwo(c: Config, trace: seq<Effect>, e: Effect, f: Effect)
    ensures After(c, trace + [e, f]) == Follow(c, Follow(c, After(c, trace), e), f)
  {
    assert trace + [e, f] == (trace + [e]) + [f];
    AfterStep(c, trace, e);
    AfterStep(c, trace + [e], f);
  }

  /** A state of the loop: a turn is running exactly when one is active, and nobody is closing. */
  ghost predicate Sound(c: Config, s: State) {
    && !s.restart && !s.reroute
    && s.next == (if s.started == 0 then Some(c.reason) else None)
    && After(c, s.trace) ==
       (if s.active.Some? then InTurn(s.active.value.id, Running, None) else Idle(s.started, None))
    && (s.active.Some? ==> s.active.value.id + 1 == s.started)
  }

  /** The state in which the loop ends: its turn may be leased or bound but not forwarded. */
  ghost predicate Ending(c: Config, s: State) {
    match After(c, s.trace)
    case Idle(turns, closing) => s.active.None? && turns == s.started && closing.None?
    case InTurn(turn, stage, closing) =>
      s.active.Some? && s.active.value.id == turn && turn + 1 == s.started && closing.None? && !stage.Written?
    case Wrong => false
  }

  lemma FinishEnds(c: Config, s: State, outcome: Outcome)
    requires s.active.Some? ==>
               var p := After(c, s.trace);
               && p.InTurn? && p.turn == s.active.value.id && !p.stage.Written? && LogFits(outcome, p.closing)
               && p.turn + 1 == s.started
    ensures
      var after := Finish(s, outcome);
      && after == s.(active := None, trace := after.trace)
      && After(c, after.trace)
         == if s.active.Some? then Idle(s.started, After(c, s.trace).closing) else After(c, s.trace)
  {
    if s.active.Some? {
      AfterTwo(c, s.trace, Logged(s.active.value.id, outcome), Released(s.active.value.id));
    }
  }

  lemma CreateKeepsSound(c: Config, s: State, granted: bool, bind: BindResult, written: bool)
    requires Sound(c, s)
    ensures
      var (after, stop) := OnCreate(c, s, granted, bind, written);
      Ending(c, after) && !after.restart && (!stop ==> Sound(c, after))
  {
    hide After;
    FinishEnds(c, s, Disconnected);
    var s1 := Finish(s, Disconnected);
    var reason := if s1.next.Some? then s1.next.value else WebsocketReuse;
    var id := s1.started;
    AfterStep(c, s1.trace, Refused);
    AfterStep(c, s1.trace, Acquired(id, reason));
    var leased := s1.trace + [Acquired(id, reason)];
    AfterStep(c, leased, Forwarded(id));
    AfterStep(c, leased, Bound(id));
    AfterStep(c, leased + [Bound(id)], Forwarded(id));
    AfterStep(c, leased, BindRefused(id));
  }

  /** Whatever happens, the loop goes on in a sound state or ends in one that can be wound up. */
  lemma EventKeepsSound(c: Config, s: State, e: Event)
    requires Sound(c, s)
    ensures
      var (after, stop) := OnEvent(c, s, e);
      Ending(c, after) && !(after.restart && after.reroute) && (!stop ==> Sound(c, after))
  {
    hide After, Finish, OnCreate;
    AfterStep(c, s.trace, Relayed);
    match e
    case Create(granted, bind, written) => CreateKeepsSound(c, s, granted, bind, written);
    case Terminal(terminal, retry, written) =>
      FinishEnds(c, s, terminal);
      AfterStep(c, Finish(s, terminal).trace, Relayed);
    case _ =>
  }

  function ClosingOf(s: State): CloseReason { if s.reroute then Reroute else if s.restart then Restart else Plain }

  lemma WindEnds(c: Config, s: State)
    requires Ending(c, s)
    ensures Wind(s).active.None? && Wind(s).started == s.started
    ensures After(c, Wind(s).trace) == Idle(s.started, Some(ClosingOf(s)))
  {
    hide After, Finish;
    if s.reroute {
      AfterTwo(c, s.trace, ClosedClient(Reroute), ClosedUpstream);
      FinishEnds(c, s.(trace := s.trace + [ClosedClient(Reroute), ClosedUpstream]), SessionReroute);
    } else if s.restart {
      AfterStep(c, s.trace, ClosedClient(Restart));
      var told := s.(trace := s.trace + [ClosedClient(Restart)]);
      FinishEnds(c, told, ServiceRestart);
      AfterStep(c, Finish(told, ServiceRestart).trace, ClosedUpstream);
    } else {
      FinishEnds(c, s, Disconnected);
      AfterTwo(c, Finish(s, Disconnected).trace, ClosedUpstream, ClosedClient(Plain));
    }
  }

  /** However its events run and however it ends, a connection keeps to the automaton and ends between turns. */
  lemma {:induction false} LiveEnds(c: Config, s: State, events: seq<Event>)
    requires Sound(c, s)
    ensures After(c, Live(c, s, events).trace).Idle?
        && After(c, Live(c, s, events).trace).turns == Live(c, s, events).started
    decreases |events|
  {
    hide After, Wind, OnEvent;
    if events == [] {
      if s.active.Some? { AfterStep(c, s.trace, LeaseDropped(s.active.value.id)); }
    } else {
      EventKeepsSound(c, s, events[0]);
      var (after, stop) := OnEvent(c, s, events[0]);
      if stop { WindEnds(c, after); } else { LiveEnds(c, after, events[1..]); }
    }
  }

  // ---------------------------------------------------------------- what the automaton guarantees

  datatype Kind = Acquires | Logs | Drops | GivesUp

  predicate Is(kind: Kind, id: nat, e: Effect) {
    match kind
    case Acquires => e.Acquired? && e.id == id
    case Logs => e.Logged? && e.id == id
    case Drops => e == LeaseDropped(id)
    case GivesUp => e == Released(id) || e == LeaseDropped(id)
  }

  function Count(trace: seq<Effect>, kind: Kind, id: nat): nat {
    if trace == [] then 0
    else Count(trace[..|trace| - 1], kind, id) + if Is(kind, id, trace[|trace| - 1]) then 1 else 0
  }

  ghost predicate Balanced(trace: seq<Effect>, id: nat, acquired: nat, ended: nat, logged: nat) {
    && Count(trace, Acquires, id) == acquired
    && Count(trace, GivesUp, id) == ended
    && Count(trace, Logs, id) + Count(trace, Drops, id) == logged
  }

  lemma CountStep(trace: seq<Effect>, e: Effect, kind: Kind, id: nat)
    ensures Count(trace + [e], kind, id) == Count(trace, kind, id) + if Is(kind, id, e) then 1 else 0
  {
    assert (trace + [e])[..|trace|] == trace;
  }

  ghost predicate BalancedIn(p: Phase, trace: seq<Effect>, id: nat) {
    match p
    case Idle(turns, _) => var n := if id < turns then 1 else 0; Balanced(trace, id, n, n, n)
    case InTurn(turn, stage, _) =>
      var n := if id < turn then 1 else 0;
      Balanced(trace, id, if id == turn then 1 else n, n, if id == turn && stage.Written? then 1 else n)
    case Wrong => false
  }

  lemma FollowBalances(c: Config, p: Phase, trace: seq<Effect>, e: Effect, id: nat)
    requires BalancedIn(p, trace, id) && !Follow(c, p, e).Wrong?
    ensures BalancedIn(Follow(c, p, e), trace + [e], id)
  {
    CountStep(trace, e, Acquires, id);
    CountStep(trace, e, Logs, id);
    CountStep(trace, e, Drops, id);
    CountStep(trace, e, GivesUp, id);
    hide Count, LogFits, ReasonOf;
    match e
    case Acquired(_, _) =>
    case Logged(_, _) =>
    case Released(_) =>
    case LeaseDropped(_) =>
    case _ =>
  }

  /** Turns before the current one are over, the current one is leased once, and later ones have not begun. */
  lemma {:induction false} AcceptedBalances(c: Config, trace: seq<Effect>, id: nat)
    requires !After(c, trace).Wrong?
    ensures BalancedIn(After(c, trace), trace, id)
  {
    if trace != [] {
      var init, e := trace[..|trace| - 1], trace[|trace| - 1];
      assert trace == init + [e];
      AfterStep(c, init, e);
      hide BalancedIn;
      AcceptedBalances(c, init, id);
      FollowBalances(c, After(c, init), init, e, id);
    }
  }

  /** Whether the connection is dropped before its loop ends. */
  predicate Aborts(c: Config, s: State, events: seq<Event>)
    decreases |events|
  {
    events == [] || (!OnEvent(c, s, events[0]).1 && Aborts(c, OnEvent(c, s, events[0]).0, events[1..]))
  }

  predicate NoDrops(trace: seq<Effect>) { forall e | e in trace :: !e.LeaseDropped? }

  lemma NoDropsAppended(s: State, outcome: Outcome)
    requires NoDrops(s.trace)
    ensures NoDrops(Finish(s, outcome).trace)
  {}

  lemma EventDropsNone(c: Config, s: State, e: Event)
    requires NoDrops(s.trace)
    ensures NoDrops(OnEvent(c, s, e).0.trace)
  {
    NoDropsAppended(s, Disconnected);
    if e.Terminal? { NoDropsAppended(s, e.terminal); }
    hide Finish;
  }

  lemma WindDropsNone(s: State)
    requires NoDrops(s.trace)
    ensures NoDrops(Wind(s).trace)
  {
    NoDropsAppended(s, Disconnected);
    NoDropsAppended(s.(trace := s.trace + [ClosedClient(Restart)]), ServiceRestart);
    NoDropsAppended(s.(trace := s.trace + [ClosedClient(Reroute), ClosedUpstream]), SessionReroute);
    hide Finish;
  }

  lemma {:induction false} OnlyAbortDrops(c: Config, s: State, events: seq<Event>)
    requires NoDrops(s.trace) && !Aborts(c, s, events)
    ensures NoDrops(Live(c, s, events).trace)
    decreases |events|
  {
    hide OnEvent, NoDrops, Wind;
    var (after, stop) := OnEvent(c, s, events[0]);
    EventDropsNone(c, s, events[0]);
    if stop { WindDropsNone(after); } else { OnlyAbortDrops(c, after, events[1..]); }
  }

  lemma {:induction false} NoDropsCounted(trace: seq<Effect>, id: nat)
    requires NoDrops(trace)
    ensures Count(trace, Drops, id) == 0
  {
    if trace != [] {
      assert trace[|trace| - 1] in trace;
      NoDropsCounted(trace[..|trace| - 1], id);
    }
  }

  /**
    Each turn is leased once, given up once and logged once, whichever way the loop ends; dropped with
    its connection, it is not logged.
   */
  lemma EveryTurnEndsOnce(c: Config, events: seq<Event>, id: nat)
    requires id < Live(c, Opening(c), events).started
    ensures
      var trace := Live(c, Opening(c), events).trace;
      && Count(trace, Acquires, id) == 1
      && Count(trace, GivesUp, id) == 1
      && Count(trace, Logs, id) == 1 - Count(trace, Drops, id)
      && (!Aborts(c, Opening(c), events) ==> Count(trace, Logs, id) == 1)
  {
    var trace := Live(c, Opening(c), events).trace;
    LiveEnds(c, Opening(c), events);
    AcceptedBalances(c, trace, id);
    if !Aborts(c, Opening(c), events) {
      OnlyAbortDrops(c, Opening(c), events);
      NoDropsCounted(trace, id);
    }
  }

  ghost predicate Forwardable(c: Config, trace: seq<Effect>, k: nat, id: nat)
    requires k < |trace|
  {
    if c.bound then k >= 2 && trace[k - 1] == Bound(id) && trace[k - 2] == Acquired(id, ReasonOf(c, id))
    else k >= 1 && trace[k - 1] == Acquired(id, ReasonOf(c, id))
  }

  lemma LeasedByAcquire(c: Config, trace: seq<Effect>, id: nat)
    requires After(c, trace) == InTurn(id, Leased, None)
    ensures trace != [] && trace[|trace| - 1] == Acquired(id, ReasonOf(c, id))
  {}

  lemma ReadyByBind(c: Config, trace: seq<Effect>, id: nat)
    requires After(c, trace) == InTurn(id, Ready, None)
    ensures |trace| >= 2 && trace[|trace| - 1] == Bound(id) && trace[|trace| - 2] == Acquired(id, ReasonOf(c, id))
  {
    LeasedByAcquire(c, trace[..|trace| - 1], id);
  }

  lemma {:induction false} PrefixAccepted(c: Config, trace: seq<Effect>, k: nat)
    requires !After(c, trace).Wrong? && k <= |trace|
    ensures !After(c, trace[..k]).Wrong?
    decreases |trace|
  {
    if k < |trace| {
      PrefixAccepted(c, trace[..|trace| - 1], k);
      assert trace[..|trace| - 1][..k] == trace[..k];
    } else {
      assert trace[..k] == trace;
    }
  }

  /** A request goes upstream only right after its account was acquired and, with affinities, its route bound. */
  lemma ForwardedOnlyBound(c: Config, events: seq<Event>, k: nat)
    requires k < |Live(c, Opening(c), events).trace| && Live(c, Opening(c), events).trace[k].Forwarded?
    ensures Forwardable(c, Live(c, Opening(c), events).trace, k, Live(c, Opening(c), events).trace[k].id)
  {
    var trace := Live(c, Opening(c), events).trace;
    LiveEnds(c, Opening(c), events);
    hide Live;
    PrefixAccepted(c, trace, k + 1);
    assert trace[..k + 1][..k] == trace[..k];
    var id := trace[k].id;
    if c.bound { ReadyByBind(c, trace[..k], id); } else { LeasedByAcquire(c, trace[..k], id); }
  }

  /** Once the client has been told to leave, nothing more is leased, bound, forwarded or relayed. */
  predicate QuietAfterClose(trace: seq<Effect>) {
    forall j, k | 0 <= j < k < |trace| && trace[j].ClosedClient? ::
      trace[k].Logged? || trace[k].Released? || trace[k].LeaseDropped? || trace[k].ClosedUpstream?
  }

  ghost predicate ClosedSo(trace: seq<Effect>, closing: Option<CloseReason>) {
    if closing.Some? then exists j :: 0 <= j < |trace| && trace[j] == ClosedClient(closing.value)
    else forall j | 0 <= j < |trace| :: !trace[j].ClosedClient?
  }

  lemma {:induction false} AcceptedQuiet(c: Config, trace: seq<Effect>)
    requires !After(c, trace).Wrong?
    ensures QuietAfterClose(trace) && ClosedSo(trace, After(c, trace).closing)
  {
    if trace != [] {
      var init, e := trace[..|trace| - 1], trace[|trace| - 1];
      AcceptedQuiet(c, init);
      hide After;
      assert After(c, trace) == Follow(c, After(c, init), e) by {
        AfterStep(c, init, e);
        assert trace == init + [e];
      }
      if e.ClosedClient? {
        assert trace[|trace| - 1] == e;
      } else if After(c, init).closing.Some? {
        var j :| 0 <= j < |init| && init[j] == ClosedClient(After(c, init).closing.value);
        assert trace[j] == init[j];
      }
    }
  }

  /** On a reroute or a restart the client hears of it before the turn it interrupts is logged, and never otherwise. */
  lemma ToldBeforeLogged(c: Config, events: seq<Event>, k: nat)
    requires k < |Live(c, Opening(c), events).trace| && Live(c, Opening(c), events).trace[k].Logged?
    ensures
      var trace := Live(c, Opening(c), events).trace;
      && QuietAfterClose(trace)
      && (trace[k].outcome.SessionReroute? ==> ClosedSo(trace[..k], Some(Reroute)))
      && (trace[k].outcome.ServiceRestart? ==> ClosedSo(trace[..k], Some(Restart)))
      && (!trace[k].outcome.SessionReroute? && !trace[k].outcome.ServiceRestart? ==> ClosedSo(trace[..k], None))
  {
    var trace := Live(c, Opening(c), events).trace;
    LiveEnds(c, Opening(c), events);
    hide *;
    AcceptedQuiet(c, trace);
    PrefixAccepted(c, trace, k + 1);
    assert trace[..k + 1][..k] == trace[..k];
    LoggedFits(c, trace[..k + 1]);
    AcceptedQuiet(c, trace[..k]);
  }

  /** Where a log may follow. */
  lemma LoggedFits(c: Config, trace: seq<Effect>)
    requires trace != [] && !After(c, trace).Wrong? && trace[|trace| - 1].Logged?
    ensures var before, outcome := After(c, trace[..|trace| - 1]), trace[|trace| - 1].outcome;
            && !before.Wrong?
            && (outcome.SessionReroute? ==> before.closing == Some(Reroute))
            && (outcome.ServiceRestart? ==> before.closing == Some(Restart))
            && (!outcome.SessionReroute? && !outcome.ServiceRestart? ==> before.closing == None)
  {}

  /** An event that shows the connection's route to be out of date. */
  predicate Outdates(c: Config, e: Event) {
    c.bound && ((e.Signal? && e.generation > c.generation) || (e.Create? && e.granted && e.bind.Stale?))
  }

  function CauseOf(c: Config, e: Event): CloseReason {
    if Outdates(c, e) then Reroute else if e.Shutdown? then Restart else Plain
  }

  /** The event that ends the loop, if the connection is not dropped first. */
  function LastEvent(c: Config, s: State, events: seq<Event>): Option<nat>
    decreases |events|
  {
    if events == [] then None
    else if OnEvent(c, s, events[0]).1 then Some(0)
    else
      match LastEvent(c, OnEvent(c, s, events[0]).0, events[1..])
      case None => None
      case Some(i) => Some(i + 1)
  }

  predicate Goes(c: Config, e: Event) { CauseOf(c, e).Plain? }

  lemma CauseExact(c: Config, s: State, e: Event)
    requires Sound(c, s)
    ensures ClosingOf(OnEvent(c, s, e).0) == CauseOf(c, e)
    ensures !OnEvent(c, s, e).1 ==> Goes(c, e)
  {}

  ghost predicate ClosesFor(c: Config, s: State, events: seq<Event>) {
    var last, phase := LastEvent(c, s, events), After(c, Live(c, s, events).trace);
    && (last.Some? ==> last.value < |events|)
    && phase.Idle? && phase.closing == (if last.Some? then Some(CauseOf(c, events[last.value])) else None)
    && forall k | 0 <= k < (if last.Some? then last.value else |events|) :: Goes(c, events[k])
  }

  lemma DroppedCloses(c: Config, s: State)
    requires Sound(c, s)
    ensures ClosesFor(c, s, [])
  {
    if s.active.Some? { AfterStep(c, s.trace, LeaseDropped(s.active.value.id)); }
    hide After;
  }

  lemma StoppedCloses(c: Config, s: State, events: seq<Event>)
    requires events != [] && OnEvent(c, s, events[0]).1 && Ending(c, OnEvent(c, s, events[0]).0)
    requires ClosingOf(OnEvent(c, s, events[0]).0) == CauseOf(c, events[0])
    ensures ClosesFor(c, s, events)
  {
    WindEnds(c, OnEvent(c, s, events[0]).0);
    hide After, Wind, OnEvent, Ending, CauseOf, ClosingOf, Goes;
  }

  lemma GoingCloses(c: Config, s: State, events: seq<Event>)
    requires events != [] && !OnEvent(c, s, events[0]).1 && Goes(c, events[0])
    requires ClosesFor(c, OnEvent(c, s, events[0]).0, events[1..])
    ensures ClosesFor(c, s, events)
  {
    hide After, Wind, OnEvent, CauseOf, Goes;
    assert forall k | 0 < k < |events| :: events[k] == events[1..][k - 1];
  }

  lemma {:induction false} LiveCloses(c: Config, s: State, events: seq<Event>)
    requires Sound(c, s)
    ensures ClosesFor(c, s, events)
    decreases |events|
  {
    hide *;
    if events == [] {
      DroppedCloses(c, s);
    } else {
      EventKeepsSound(c, s, events[0]);
      CauseExact(c, s, events[0]);
      var (after, stop) := OnEvent(c, s, events[0]);
      if stop {
        StoppedCloses(c, s, events);
      } else {
        LiveCloses(c, after, events[1..]);
        GoingCloses(c, s, events);
      }
    }
  }

  /**
   * The client is sent away for a session reroute exactly when the event that ends the loop is a newer signal or a
   * refused bind, for a restart exactly when it is a shutdown; no such event ever passes without ending the loop.
   */
  lemma ClosedForItsCause(c: Config, events: seq<Event>)
    ensures
      var last, trace := LastEvent(c, Opening(c), events), Live(c, Opening(c), events).trace;
      && (last.Some? ==> last.value < |events| && ClosedSo(trace, Some(CauseOf(c, events[last.value]))))
      && (last.None? ==> ClosedSo(trace, None))
      && forall k | 0 <= k < (if last.Some? then last.value else |events|) :: Goes(c, events[k])
  {
    hide Live, LastEvent, ClosedSo;
    LiveCloses(c, Opening(c), events);
    AcceptedQuiet(c, Live(c, Opening(c), events).trace);
  }

  // ---------------------------------------------------------------- the loop itself

  /** A client's `response.create`, on the loop's variables. */
  method TakeCreate(c: Config, s: State, granted: bool, bind: BindResult, written: bool)
      returns (after: State, stop: bool)
    ensures (after, stop) == OnCreate(c, s, granted, bind, written)
  {
    var trace, active, started, reroute := s.trace, s.active, s.started, s.reroute;
    stop := false;
    if active.Some? {
      trace := trace + [Logged(active.value.id, Disconnected), Released(active.value.id)];
      active := None;
    }
    var reason := if s.next.Some? then s.next.value else WebsocketReuse;
    if granted {
      trace, active := trace + [Acquired(started, reason)], Some(Turn(started, reason));
      started := started + 1;
      if c.bound {
        match bind
        case Accepted => trace := trace + [Bound(started - 1)];
        case Stale => trace, reroute, stop := trace + [BindRefused(started - 1)], true, true;
        case Broken => trace, stop := trace + [BindRefused(started - 1)], true;
      }
      if !stop {
        trace, stop := trace + [Forwarded(started - 1)], !written;
      }
    } else {
      trace, stop := trace + [Refused], true;
    }
    after := State(trace, active, started, None, s.restart, reroute);
  }

  /** What follows the loop, on its variables. */
  method TakeLeave(s: State) returns (after: State)
    ensures after == Wind(s)
  {
    var trace := s.trace;
    if s.reroute {
      trace := trace + [ClosedClient(Reroute), ClosedUpstream];
    } else if s.restart {
      trace := trace + [ClosedClient(Restart)];
    }
    if s.active.Some? {
      var outcome := if s.reroute then SessionReroute else if s.restart then ServiceRestart else Disconnected;
      trace := trace + [Logged(s.active.value.id, outcome), Released(s.active.value.id)];
    }
    if !s.reroute {
      trace := trace + if s.restart then [ClosedUpstream] else [ClosedUpstream, ClosedClient(Plain)];
    }
    after := s.(trace := trace, active := None);
  }

  /** One turn of the loop, on its variables. */
  method TakeEvent(c: Config, s: State, e: Event) returns (after: State, stop: bool)
    ensures (after, stop) == OnEvent(c, s, e)
  {
    hide OnCreate;
    after, stop := s, false;
    match e {
      case Shutdown => after, stop := s.(restart := true), true;
      case Signal(generation) =>
        if c.bound && generation > c.generation { after, stop := s.(reroute := true), true; }
      case TurnTimeout => stop := s.active.Some?;
      case ClientGone => stop := true;
      case UpstreamGone => stop := true;
      case Create(granted, bind, written) => after, stop := TakeCreate(c, s, granted, bind, written);
      case FromClient(closes, written) => after, stop := s.(trace := s.trace + [Relayed]), closes || !written;
      case Terminal(terminal, retry, written) =>
        if s.active.Some? {
          var id := s.active.value.id;
          after := s.(trace := s.trace + [Logged(id, terminal), Released(id)], active := None);
        }
        if retry {
          stop := true;
        } else {
          after, stop := after.(trace := after.trace + [Relayed]), !written;
        }
      case FromUpstream(closes, written) => after, stop := s.(trace := s.trace + [Relayed]), closes || !written;
    }
  }

  /** The bridge as a loop over its own variables; its effects are those of `Live`. */
  method RunBridge(c: Config, events: seq<Event>) returns (trace: seq<Effect>, started: nat)
    ensures trace == Live(c, Opening(c), events).trace && started == Live(c, Opening(c), events).started
  {
    var s, stop, i := Opening(c), false, 0;
    hide OnEvent, Wind, Opening;
    while i < |events| && !stop
      invariant 0 <= i <= |events|
      invariant Live(c, Opening(c), events) == if stop then Wind(s) else Live(c, s, events[i..])
      decreases |events| - i
    {
      assert events[i..][0] == events[i] && events[i..][1..] == events[i + 1..];
      s, stop := TakeEvent(c, s, events[i]);
      i := i + 1;
    }
    if stop {
      s := TakeLeave(s);
    } else if s.active.Some? {
      s := s.(active := None, trace := s.trace + [LeaseDropped(s.active.value.id)]);
    }
    trace, started := s.trace, s.started;
  }
}
