/** The routing tables and the registry together: who hears of a command that moves a tree. */
module RouteSignals {
  import opened Base
  import opened RouteKeys
  import opened Routes
  import opened RouteInvariant
  import opened RouteRuns
  import opened RoutePending
  import Registry
  import RegistryStore

  /** The number under which the registry files a fingerprint. */
  type Code = Hash -> Registry.Key

  /** The keys a command's signal names besides its root: those of its request, not those of the trees it merges. */
  function NamedKeys(request: Request, code: Code): set<Registry.Key> {
    set i | 0 <= i < |request.keys| :: code(Hash(request.keys[i].hash))
  }

  /** The signal that follows a committed command. */
  function Signalled(r: Registry.Reg, db: Db, step: Step, code: Code): Registry.Reg
    requires Committed(db, step).Some?
  {
    Registry.SignalReroute(r, code(Hash(step.request.root)), NamedKeys(step.request, code),
                           Committed(db, step).value.generation)
  }

  predicate Matched(r: Registry.Reg, step: Step, code: Code, t: Registry.Token)
    requires step.Command?
  {
    t in Registry.Matching(r, code(Hash(step.request.root)), NamedKeys(step.request, code))
  }

  /** The generation of a move is above that of every epoch captured before on a tree it touches. */
  lemma MovedPast(states: seq<Db>, steps: seq<Step>, i: nat, j: nat, epoch: Epoch)
    requires IsRun(states, steps) && Inv(states[0]) && i <= j < |steps|
    requires Current(states[i], epoch) && Moves(states[j], steps[j], epoch.root)
    ensures epoch.generation < Committed(states[j], steps[j]).value.generation
  {
    var db, step := states[j], steps[j];
    assert StepAt(states, steps, j);
    RunKeepsInv(states, steps, i, j);
    MoveRaises(db, step, epoch.root);
    CommittedStep(db, step);
    CommitKey(db, Hash(step.request.root), Checked(step.request).value, step.request.action, step.request.target,
              Committed(db, step).value, epoch.root);
    assert Tree(states[i], epoch.root).generation == epoch.generation;
    hide Committed, Next, Inv, StepOk;
  }

  /** A move is always followed by its signal: it is applied or a fallback, at a positive generation. */
  lemma MoveIsSignalled(db: Db, step: Step)
    requires Committed(db, step).Some? && Committed(db, step).value.move
    ensures var d := Committed(db, step).value;
            d.response.generation > 0 && (d.response.status == Applied || d.response.status == Fallback)
  {
    hide Read;
  }

  lemma SignalReaches(r: Registry.Reg, root: Registry.Key, aliases: set<Registry.Key>, generation: int,
      t: Registry.Token)
    requires Registry.Genuine(r) && t in r.conns && r.conns[t].generation < generation
    ensures var after := Registry.SignalReroute(r, root, aliases, generation);
            && t in after.conns && after.conns[t].generation == r.conns[t].generation
            && (RegistryStore.MustReconnect(after.conns[t].signal, after.conns[t].generation) <==>
                  t in Registry.Matching(r, root, aliases) || r.conns[t].signal.Some?)
  {
    hide Registry.Matching;
  }

  /**
    A command moves the tree of a live connection's epoch. The connection is told to reconnect by
    its signal if and only if the registry matches it with the keys the command named; told or
    not, no bind with its epoch ever succeeds again.
   */
  lemma MovedConnectionTold(states: seq<Db>, steps: seq<Step>, i: nat, j: nat, n: nat, epoch: Epoch,
                            raw: seq<RawKey>, account: Account, r: Registry.Reg, t: Registry.Token, code: Code)
    requires IsRun(states, steps) && Inv(states[0]) && i <= j < n <= |steps|
    requires Current(states[i], epoch) && Moves(states[j], steps[j], epoch.root)
    requires Registry.Genuine(r) && t in r.conns && r.conns[t].generation == epoch.generation
    requires r.conns[t].signal.None?
    ensures var after := Signalled(r, states[j], steps[j], code);
            && t in after.conns
            && (RegistryStore.MustReconnect(after.conns[t].signal, epoch.generation) <==> Matched(r, steps[j], code, t))
    ensures Bind(states[n], raw, account, Some(epoch)).0 == states[n]
    ensures Validate(raw).Some? && raw != [] ==> Bind(states[n], raw, account, Some(epoch)).1 == Ok(false)
  {
    StaleBindSafety(states, steps, i, j, n, epoch, raw, account);
    MovedPast(states, steps, i, j, epoch);
    hide IsRun, Inv, Current, Bind, Committed, Registry.Matching, Registry.SignalReroute, Registry.Genuine;
    SignalReaches(r, code(Hash(steps[j].request.root)), NamedKeys(steps[j].request, code),
                  Committed(states[j], steps[j]).value.generation, t);
  }

  /** A connection is matched when the command names any key it is registered under. */
  lemma NamedIsMatched(r: Registry.Reg, step: Step, code: Code, t: Registry.Token, i: nat)
    requires Registry.Covered(r) && t in r.conns && step.Command? && i < |step.request.keys|
    requires code(Hash(step.request.keys[i].hash)) in r.conns[t].aliases + {r.conns[t].root}
    ensures Matched(r, step, code, t)
  {
    var k := code(Hash(step.request.keys[i].hash));
    assert k in NamedKeys(step.request, code);
    Registry.SharedKeyMatches(r, code(Hash(step.request.root)), NamedKeys(step.request, code), t, k);
    hide Registry.Matching;
  }

  /** The scheduler's retry names its whole tree, so it reaches every connection registered under any key of it. */
  lemma RetryReachesWholeTree(db: Db, root: Hash, step: Step, r: Registry.Reg, code: Code, t: Registry.Token, k: Hash)
    requires step.Command? && IsRetry(db, root, step.request) && k in TreeTable(db, root)
    requires Registry.Covered(r) && t in r.conns && code(k) in r.conns[t].aliases + {r.conns[t].root}
    ensures Matched(r, step, code, t)
  {
    assert RouteKey(k, TreeTable(db, root)[k]) in NormalSet(step.request.keys);
    var i :| 0 <= i < |step.request.keys| && Normal(step.request.keys[i]) == RouteKey(k, TreeTable(db, root)[k]);
    hide TreeTable, Registry.Covered, Matched;
    NamedIsMatched(r, step, code, t, i);
  }
}
