/** A live connection against the routing tables: what its binds answer decides what it may forward. */
module BridgeRouting {
  import opened Base
  import opened RouteKeys
  import opened Routes
  import opened RouteInvariant
  import opened RouteRuns
  import Bridge

  /** How the bridge takes the answer of a bind. */
  function BindAnswer(db: Db, raw: seq<RawKey>, account: Account, epoch: Option<Epoch>): Bridge.BindResult {
    match Bind(db, raw, account, epoch).1
    case Ok(bound) => if bound then Bridge.Accepted else Bridge.Stale
    case Err(_) => Bridge.Broken
  }

  /** Nothing from position `from` on is a forwarded request. */
  predicate ForwardsNone(trace: seq<Bridge.Effect>, from: nat) {
    forall k | from <= k < |trace| :: !trace[k].Forwarded?
  }

  predicate NoneAccepted(events: seq<Bridge.Event>) {
    forall e | e in events && e.Create? :: !e.bind.Accepted?
  }

  lemma FinishForwardsNone(s: Bridge.State, outcome: Bridge.Outcome, from: nat)
    requires from <= |s.trace| && ForwardsNone(s.trace, from)
    ensures from <= |Bridge.Finish(s, outcome).trace| && ForwardsNone(Bridge.Finish(s, outcome).trace, from)
  {}

  lemma EventForwardsNone(c: Bridge.Config, s: Bridge.State, e: Bridge.Event, from: nat)
    requires c.bound && (e.Create? ==> !e.bind.Accepted?) && from <= |s.trace| && ForwardsNone(s.trace, from)
    ensures from <= |Bridge.OnEvent(c, s, e).0.trace| && ForwardsNone(Bridge.OnEvent(c, s, e).0.trace, from)
  {
    FinishForwardsNone(s, Bridge.Disconnected, from);
    if e.Terminal? { FinishForwardsNone(s, e.terminal, from); }
    hide Bridge.Finish;
  }

  lemma WindForwardsNone(s: Bridge.State, from: nat)
    requires from <= |s.trace| && ForwardsNone(s.trace, from)
    ensures ForwardsNone(Bridge.Wind(s).trace, from)
  {}

  lemma {:induction false} LiveForwardsNone(c: Bridge.Config, s: Bridge.State, events: seq<Bridge.Event>, from: nat)
    requires c.bound && NoneAccepted(events) && from <= |s.trace| && ForwardsNone(s.trace, from)
    ensures ForwardsNone(Bridge.Live(c, s, events).trace, from)
    decreases |events|
  {
    if events != [] {
      var after := Bridge.OnEvent(c, s, events[0]).0;
      assert events[0] in events && forall e | e in events[1..] :: e in events;
      hide Bridge.OnEvent, Bridge.Wind, ForwardsNone;
      EventForwardsNone(c, s, events[0], from);
      if Bridge.OnEvent(c, s, events[0]).1 {
        WindForwardsNone(after, from);
      } else {
        LiveForwardsNone(c, after, events[1..], from);
      }
    }
  }

  /**
    The connection's events from here on, each bind answered by the tables as they are at that moment,
    if not by an error.
   */
  ghost predicate AnsweredBy(states: seq<Db>, at: seq<nat>, events: seq<Bridge.Event>,
                             raw: seq<RawKey>, account: Account, epoch: Option<Epoch>)
  {
    && |at| == |events|
    && forall k | 0 <= k < |events| ::
         && at[k] < |states|
         && (events[k].Create? ==>
               events[k].bind.Broken? || events[k].bind == BindAnswer(states[at[k]], raw, account, epoch))
  }

  /**
    Once a moving command has touched the tree of a connection's epoch, no later request on that
    connection goes upstream, whatever else happens to the tables or to the connection.
   */
  lemma ObsoleteConnectionForwardsNothing(
    states: seq<Db>, steps: seq<Step>, i: nat, j: nat, at: seq<nat>,
    raw: seq<RawKey>, account: Account, epoch: Epoch,
    c: Bridge.Config, s: Bridge.State, events: seq<Bridge.Event>)
    requires IsRun(states, steps) && Inv(states[0]) && i <= j < |steps|
    requires Current(states[i], epoch) && Moves(states[j], steps[j], epoch.root)
    requires raw != [] && c.bound
    requires AnsweredBy(states, at, events, raw, account, Some(epoch)) && forall k | 0 <= k < |at| :: j < at[k]
    ensures ForwardsNone(Bridge.Live(c, s, events).trace, |s.trace|)
  {
    hide Inv, Moves, Bind, Current, Next, StepAt, Bridge.Live;
    forall e | e in events && e.Create? ensures !e.bind.Accepted? {
      var k :| 0 <= k < |events| && events[k] == e;
      StaleBindSafety(states, steps, i, j, at[k], epoch, raw, account);
      InvalidKeysFail(states[at[k]], raw, account, epoch);
    }
    LiveForwardsNone(c, s, events, |s.trace|);
  }

  /**
    A connection that opened before its keys were claimed holds no epoch: once a command has claimed one
    of them, no later request on it goes upstream either.
   */
  lemma ClaimedConnectionForwardsNothing(
    states: seq<Db>, steps: seq<Step>, j: nat, at: seq<nat>, raw: seq<RawKey>, account: Account, i: nat,
    c: Bridge.Config, s: Bridge.State, events: seq<Bridge.Event>)
    requires IsRun(states, steps) && Inv(states[0]) && j < |steps| && i < |raw| && c.bound
    requires Committed(states[j], steps[j]).Some? && Hash(raw[i].hash) in Committed(states[j], steps[j]).value.keys
    requires AnsweredBy(states, at, events, raw, account, None) && forall k | 0 <= k < |at| :: j < at[k]
    ensures ForwardsNone(Bridge.Live(c, s, events).trace, |s.trace|)
  {
    hide Inv, Committed, Bind, Next, StepAt, Bridge.Live;
    forall e | e in events && e.Create? ensures !e.bind.Accepted? {
      var k :| 0 <= k < |events| && events[k] == e;
      LegacyBindSafety(states, steps, j, at[k], raw, account, i);
    }
    LiveForwardsNone(c, s, events, |s.trace|);
  }

  lemma InvalidKeysFail(db: Db, raw: seq<RawKey>, account: Account, epoch: Epoch)
    ensures Validate(raw).None? ==> Bind(db, raw, account, Some(epoch)).1.Err?
  {}
}
