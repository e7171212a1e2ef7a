/**
  Whole runs of the routing protocol: arbitrary interleavings of route commands, binds from
  connections that captured their epoch at any earlier moment, pruning and account changes.
 */
module RouteRuns {
  import opened Base
  import opened RouteKeys
  import opened Routes
  import opened RouteInvariant
  import opened RouteBinds

  datatype Step =
    | Command(request: Request, env: Env)
    | BindStep(raw: seq<RawKey>, account: Account, epoch: Option<Epoch>)
    | PruneStep(expired: set<Hash>)
    | DeleteStep(deleted: Account)
    | AddStep(added: Account, name: string)

  function Next(db: Db, step: Step): Db {
    match step
    case Command(request, env) => Apply(db, request, env).0
    case BindStep(raw, account, epoch) => Bind(db, raw, account, epoch).0
    case PruneStep(expired) => Prune(db, expired)
    case DeleteStep(deleted) => DeleteAccount(db, deleted)
    case AddStep(added, name) => AddAccount(db, added, name)
  }

  ghost predicate StepOk(db: Db, step: Step) {
    step.Command? ==> EnvOk(db, step.env)
  }

  ghost predicate StepAt(states: seq<Db>, steps: seq<Step>, i: nat)
    requires i < |steps| < |states|
  {
    StepOk(states[i], steps[i]) && states[i + 1] == Next(states[i], steps[i])
  }

  ghost predicate IsRun(states: seq<Db>, steps: seq<Step>) {
    && |states| == |steps| + 1
    && (forall i | 0 <= i < |steps| :: StepAt(states, steps, i))
  }

  /** The state the migration leaves: sticky rows from before, all of generation 0, and no tree. */
  ghost predicate Initial(db: Db) {
    && db.roots == map[] && db.keys == map[]
    && (forall k | k in db.affinity :: db.affinity[k].generation == 0 && db.affinity[k].account in db.accounts)
  }

  lemma InitialInv(db: Db)
    requires Initial(db)
    ensures Inv(db)
  {
  }

  lemma StepKeepsInv(db: Db, step: Step)
    requires Inv(db) && StepOk(db, step)
    ensures Inv(Next(db, step)) && Grows(db, Next(db, step))
  {
    match step
    case Command(request, env) => ApplyKeepsInv(db, request, env);
    case BindStep(raw, account, epoch) => BindKeepsInv(db, raw, account, epoch);
    case PruneStep(expired) => PruneKeepsInv(db, expired);
    case DeleteStep(deleted) => DeleteAccountKeepsInv(db, deleted);
    case AddStep(added, name) => AddAccountKeepsInv(db, added, name);
  }

  /** Every reachable state satisfies the invariant, and later states only grow earlier ones. */
  lemma {:induction false} RunKeepsInv(states: seq<Db>, steps: seq<Step>, i: nat, j: nat)
    requires IsRun(states, steps) && Inv(states[0]) && i <= j < |states|
    ensures Inv(states[i]) && Inv(states[j]) && Grows(states[i], states[j])
    decreases j
  {
    hide Next;
    if j > 0 {
      assert StepAt(states, steps, j - 1);
      if i < j {
        RunKeepsInv(states, steps, i, j - 1);
        StepKeepsInv(states[j - 1], steps[j - 1]);
        GrowsTransitive(states[i], states[j - 1], states[j]);
      } else {
        RunKeepsInv(states, steps, j - 1, j - 1);
        StepKeepsInv(states[j - 1], steps[j - 1]);
      }
    }
  }

  // ---------------------------------------------------------------- obsolete epochs

  /** The decision of a committed route command. */
  function Committed(db: Db, step: Step): Option<Decision> {
    if step.Command? && !step.request.dryRun && Checked(step.request).Some? then
      var root := Hash(step.request.root);
      match Decide(db, root in db.roots, root, Checked(step.request).value, step.request.target, step.env)
      case Ok(d) => Some(d)
      case Err(_) => None
    else None
  }

  /** The command commits and its merged tree contains the tree of `k`. */
  ghost predicate Touches(db: Db, step: Step, k: Hash) {
    k in db.keys && Committed(db, step).Some? && db.keys[k].root in Committed(db, step).value.roots
  }

  ghost predicate Moves(db: Db, step: Step, k: Hash) {
    Touches(db, step, k) && Committed(db, step).value.move
  }

  lemma CommittedStep(db: Db, step: Step)
    requires Inv(db) && StepOk(db, step) && Committed(db, step).Some?
    ensures var d := Committed(db, step).value;
            var root := Hash(step.request.root);
            var input := Checked(step.request);
            && input.Some? && root in input.value
            && Next(db, step) == Commit(db, root, step.request.action, step.request.target, d)
            && Sound(db, root, input.value, step.request.target, step.env, d)
  {
    var root := Hash(step.request.root);
    ApplyUnfolds(db, step.request, step.env);
    DecideSound(db, root in db.roots, root, Checked(step.request).value, step.request.target, step.env);
  }

  lemma UncommittedStep(db: Db, step: Step)
    requires step.Command? && Committed(db, step).None?
    ensures Next(db, step) == db
  {
    if !step.request.dryRun && Checked(step.request).Some? {
      ApplyUnfolds(db, step.request, step.env);
    }
  }

  /** A moving command raises the generation of every tree it touches above what anyone captured. */
  lemma MoveRaises(db: Db, step: Step, k: Hash)
    requires Inv(db) && StepOk(db, step) && Moves(db, step, k)
    ensures Inv(Next(db, step)) && k in Next(db, step).keys
    ensures Tree(db, k).generation < Tree(Next(db, step), k).generation
  {
    StepKeepsInv(db, step);
    CommittedStep(db, step);
    CommitKey(db, Hash(step.request.root), Checked(step.request).value, step.request.action, step.request.target,
              Committed(db, step).value, k);
  }

  /** An epoch older than the tree its root now belongs to can neither bind nor change anything. */
  lemma StaleBindRefused(db: Db, raw: seq<RawKey>, account: Account, epoch: Epoch)
    requires Inv(db) && epoch.root in db.keys && epoch.generation < Tree(db, epoch.root).generation
    ensures Bind(db, raw, account, Some(epoch)).0 == db
    ensures Validate(raw).Some? && raw != [] ==> Bind(db, raw, account, Some(epoch)).1 == Ok(false)
  {
    assert !Current(db, epoch);
    if Validate(raw).Some? && raw != [] {
      ValidationExact(raw);
      assert Normal(raw[0]) in NormalSet(raw);
    }
  }

  /** A command moves whenever some key of its tree has no sticky row for the account it settles on. */
  lemma DisagreementMoves(db: Db, step: Step, k: Hash)
    requires Committed(db, step).Some? && Committed(db, step).value.effective.Some?
    requires k in Committed(db, step).value.keys
    requires k !in db.affinity || db.affinity[k].account != Committed(db, step).value.effective.value
    ensures Committed(db, step).value.move
  {
    var d := Committed(db, step).value;
    assert k in ChangedKeys(db.accounts, db.affinity, d.keys, d.effective.value);
  }

  /** So a connection on an account that a command turns away from cannot bind again with the epoch it holds. */
  lemma RerouteRefusesOldConnection(db: Db, step: Step, epoch: Epoch, k: Hash, raw: seq<RawKey>, account: Account)
    requires Inv(db) && StepOk(db, step) && Current(db, epoch) && Touches(db, step, epoch.root)
    requires k in Committed(db, step).value.keys && k in db.affinity && Committed(db, step).value.effective.Some?
    requires db.affinity[k].account != Committed(db, step).value.effective.value
    ensures Bind(Next(db, step), raw, account, Some(epoch)).0 == Next(db, step)
    ensures Validate(raw).Some? && raw != [] ==> Bind(Next(db, step), raw, account, Some(epoch)).1 == Ok(false)
  {
    hide Next, Committed, Bind;
    DisagreementMoves(db, step, k);
    MoveRaises(db, step, epoch.root);
    StaleBindRefused(Next(db, step), raw, account, epoch);
  }

  /**
    Stale-bind safety over every run: once a moving command has touched the tree of an epoch
    captured at state `i`, a bind with that epoch is refused and changes nothing, for ever
    after, even if the epoch's root was merged away or has become a root again.
   */
  lemma StaleBindSafety(states: seq<Db>, steps: seq<Step>, i: nat, j: nat, n: nat,
                        epoch: Epoch, raw: seq<RawKey>, account: Account)
    requires IsRun(states, steps) && Inv(states[0]) && i <= j < n <= |steps|
    requires Current(states[i], epoch)
    requires Moves(states[j], steps[j], epoch.root)
    ensures Bind(states[n], raw, account, Some(epoch)).0 == states[n]
    ensures Validate(raw).Some? && raw != [] ==> Bind(states[n], raw, account, Some(epoch)).1 == Ok(false)
  {
    hide Next, Committed, Bind;
    assert StepAt(states, steps, j);
    RunKeepsInv(states, steps, i, j);
    MoveRaises(states[j], steps[j], epoch.root);
    RunKeepsInv(states, steps, j + 1, n);
    assert Tree(states[i], epoch.root).generation == epoch.generation;
    assert Tree(states[j], epoch.root).generation < Tree(states[j + 1], epoch.root).generation;
    StaleBindRefused(states[n], raw, account, epoch);
  }

  /** The key set a committed command claims, and nothing else, is the tree it leaves behind. */
  lemma CommandClaims(db: Db, step: Step, k: Hash)
    requires Inv(db) && StepOk(db, step) && Committed(db, step).Some?
    ensures Inv(Next(db, step))
    ensures k in Committed(db, step).value.keys <==>
            k in Next(db, step).keys && Next(db, step).keys[k].root == Hash(step.request.root)
    ensures k in Committed(db, step).value.keys ==> Claimed(Next(db, step), k)
  {
    StepKeepsInv(db, step);
    CommittedStep(db, step);
    var d := Committed(db, step).value;
    if k in db.keys {
      TouchedKeys(db, Hash(step.request.root), Checked(step.request).value, d, k);
    }
  }

  lemma ClaimedInputRefused(db: Db, input: map<Hash, Kind>, preferred: Hash, account: Account, k: Hash)
    requires Inv(db) && k in input && Claimed(db, k)
    ensures BindLegacy(db, input, preferred, account) == (db, Ok(false))
  {
    assert db.keys[k].root in PriorRoots(db.keys, input);
  }

  lemma ClaimedKeyRefusesLegacyBind(db: Db, raw: seq<RawKey>, account: Account, i: nat)
    requires Inv(db) && i < |raw| && Claimed(db, Hash(raw[i].hash))
    ensures Bind(db, raw, account, None).0 == db
    ensures Bind(db, raw, account, None).1 != Ok(true)
  {
    var keys := Validate(raw);
    if keys.Some? {
      ValidationExact(raw);
      assert Normal(raw[i]) in NormalSet(raw);
      assert Normal(raw[i]) in keys.value;
      ClaimedInputRefused(db, KeyTable(keys.value), PreferredRoot(keys.value), account, Hash(raw[i].hash));
    }
  }

  /** No bind without an epoch ever succeeds again on a key that some command has claimed. */
  lemma LegacyBindSafety(states: seq<Db>, steps: seq<Step>, j: nat, n: nat, raw: seq<RawKey>, account: Account, i: nat)
    requires IsRun(states, steps) && Inv(states[0]) && j < n <= |steps| && i < |raw|
    requires Committed(states[j], steps[j]).Some? && Hash(raw[i].hash) in Committed(states[j], steps[j]).value.keys
    ensures Bind(states[n], raw, account, None).0 == states[n]
    ensures Bind(states[n], raw, account, None).1 != Ok(true)
  {
    hide Next, Committed, Bind;
    assert StepAt(states, steps, j);
    RunKeepsInv(states, steps, j, j);
    CommandClaims(states[j], steps[j], Hash(raw[i].hash));
    RunKeepsInv(states, steps, j + 1, n);
    ClaimedKeyRefusesLegacyBind(states[n], raw, account, i);
  }

  /** An epoch captured now does bind, so the refusals above are not vacuous. */
  lemma FreshBindAccepted(db: Db, raw: seq<RawKey>, account: Account, epoch: Epoch)
    requires Inv(db) && Current(db, epoch) && account in db.accounts && Validate(raw).Some?
    requires forall k | k in NormalSet(raw) && k.hash in db.keys :: db.keys[k.hash].root == epoch.root
    ensures Bind(db, raw, account, Some(epoch)).1 == Ok(true)
  {
    ValidationExact(raw);
    var keys := Validate(raw).value;
    if keys != [] {
      assert forall k | k in keys :: k in NormalSet(raw);
      assert !Foreign(db, epoch.root, KeyTable(keys));
    }
  }

  // ---------------------------------------------------------------- no restoration

  /** The step cannot reach the tree of `k`: no command touches it and no bind is current for it. */
  ghost predicate LeavesTree(db: Db, step: Step, k: Hash)
    requires Rooted(db) && k in db.keys
  {
    match step
    case Command(_, _) => !Touches(db, step, k)
    case BindStep(_, _, Some(e)) => Current(db, e) ==> e.root != db.keys[k].root
    case BindStep(_, _, None) => Claimed(db, k)
    case _ => true
  }

  /** The tree of `k` and its sticky row survive, except that the row may disappear. */
  ghost predicate Undisturbed(before: Db, after: Db, k: Hash)
    requires Rooted(before) && Rooted(after) && k in before.keys
  {
    && k in after.keys
    && Tree(after, k).generation == Tree(before, k).generation
    && (k in after.affinity ==> k in before.affinity && after.affinity[k] == before.affinity[k])
    && (forall x | x in before.keys && SameTree(after, x, k) :: SameTree(before, x, k))
  }

  lemma CommandElsewhere(db: Db, step: Step, k: Hash)
    requires Inv(db) && StepOk(db, step) && step.Command? && k in db.keys && LeavesTree(db, step, k)
    ensures Inv(Next(db, step)) && Undisturbed(db, Next(db, step), k)
  {
    StepKeepsInv(db, step);
    if Committed(db, step).None? {
      UncommittedStep(db, step);
    } else {
      CommittedStep(db, step);
      var root, input, d := Hash(step.request.root), Checked(step.request).value, Committed(db, step).value;
      CommitKey(db, root, input, step.request.action, step.request.target, d, k);
      TouchedKeys(db, root, input, d, k);
      forall x | x in db.keys && SameTree(Next(db, step), x, k) ensures SameTree(db, x, k) {
        CommitKey(db, root, input, step.request.action, step.request.target, d, x);
      }
    }
  }

  lemma EpochBindElsewhere(db: Db, input: map<Hash, Kind>, account: Account, epoch: Epoch, k: Hash)
    requires Inv(db) && k in db.keys && (Current(db, epoch) ==> epoch.root != db.keys[k].root)
    ensures var after := BindAtEpoch(db, input, account, epoch).0;
            Rooted(after) && Undisturbed(db, after, k)
  {
    if BindAtEpoch(db, input, account, epoch).1 == Ok(true) {
      var after := BindAtEpoch(db, input, account, epoch).0;
      EpochBindExtends(db, input, account, epoch);
      ExtendsGrows(db, after, epoch.root);
      if k in after.affinity {
        EpochBindRoute(db, input, account, epoch, k);
      }
    }
  }

  lemma ExtensionElsewhere(before: Db, after: Db, root: Hash, k: Hash)
    requires Extends(before, after, root) && Rooted(after) && k in before.keys && before.keys[k].root in before.roots
    requires k in after.affinity ==> k in before.affinity && after.affinity[k] == before.affinity[k]
    ensures Undisturbed(before, after, k)
  {}

  lemma LegacyRowElsewhere(db: Db, input: map<Hash, Kind>, preferred: Hash, account: Account, k: Hash)
    requires k !in input
    ensures var after := BindLegacy(db, input, preferred, account).0;
            k in after.affinity ==> k in db.affinity && after.affinity[k] == db.affinity[k]
  {
    hide ClaimKeys, LegacyRoot, WithRoot, PriorRoots;
  }

  lemma LegacyBindElsewhere(db: Db, input: map<Hash, Kind>, preferred: Hash, account: Account, k: Hash)
    requires Inv(db) && Claimed(db, k) && preferred in input
    ensures var after := BindLegacy(db, input, preferred, account).0;
            Rooted(after) && Undisturbed(db, after, k)
  {
    if k in input {
      ClaimedInputRefused(db, input, preferred, account, k);
    } else if BindLegacy(db, input, preferred, account).1 == Ok(true) {
      var after := BindLegacy(db, input, preferred, account).0;
      LegacyBindExtends(db, input, preferred, account);
      ExtendsGrows(db, after, LegacyRoot(db.keys, input, preferred));
      LegacyRowElsewhere(db, input, preferred, account, k);
      hide Inv, BindLegacy, LegacyRoot, Grows, Extends, Undisturbed;
      ExtensionElsewhere(db, after, LegacyRoot(db.keys, input, preferred), k);
    }
  }

  lemma BindElsewhere(db: Db, raw: seq<RawKey>, account: Account, epoch: Option<Epoch>, k: Hash)
    requires Inv(db) && k in db.keys && LeavesTree(db, BindStep(raw, account, epoch), k)
    ensures var after := Bind(db, raw, account, epoch).0;
            Rooted(after) && Undisturbed(db, after, k)
  {
    var keys := Validate(raw);
    if keys.Some? && keys.value != [] {
      CollectSound(raw);
      match epoch
      case Some(e) => EpochBindElsewhere(db, KeyTable(keys.value), account, e, k);
      case None =>
        PreferredIsKey(keys.value);
        LegacyBindElsewhere(db, KeyTable(keys.value), PreferredRoot(keys.value), account, k);
    }
  }

  lemma StepElsewhere(db: Db, step: Step, k: Hash)
    requires Inv(db) && StepOk(db, step) && k in db.keys && LeavesTree(db, step, k)
    ensures Inv(Next(db, step)) && Undisturbed(db, Next(db, step), k)
  {
    StepKeepsInv(db, step);
    match step
    case Command(_, _) => CommandElsewhere(db, step, k);
    case BindStep(raw, account, epoch) => BindElsewhere(db, raw, account, epoch, k);
    case PruneStep(_) =>
    case DeleteStep(_) =>
    case AddStep(_, _) =>
  }

  lemma UndisturbedTransitive(a: Db, b: Db, c: Db, k: Hash)
    requires Inv(a) && Inv(b) && Inv(c) && k in a.keys && Grows(a, b)
    requires Undisturbed(a, b, k) && Undisturbed(b, c, k)
    ensures Undisturbed(a, c, k)
  {
  }

  /** Step `m` is no newer command on the tree of `k`, and no bind with an epoch captured after the move. */
  ghost predicate ObsoleteStep(states: seq<Db>, steps: seq<Step>, moved: nat, m: nat, k: Hash)
    requires moved < m < |steps| < |states|
  {
    match steps[m]
    case Command(_, _) => !Touches(states[m], steps[m], k)
    case BindStep(_, _, Some(e)) => exists i | 0 <= i <= moved :: Current(states[i], e)
    case _ => true
  }

  ghost predicate OnlyObsolete(states: seq<Db>, steps: seq<Step>, moved: nat, to: nat, k: Hash)
    requires moved < to <= |steps| < |states|
  {
    forall m | moved < m < to :: ObsoleteStep(states, steps, moved, m, k)
  }

  /** Step `moved` is a moving command and `k` belongs to the tree it moves. */
  ghost predicate MovedAt(states: seq<Db>, steps: seq<Step>, moved: nat, k: Hash)
    requires IsRun(states, steps) && moved < |steps|
  {
    && Committed(states[moved], steps[moved]).Some?
    && Committed(states[moved], steps[moved]).value.move
    && k in Committed(states[moved], steps[moved]).value.keys
  }

  /** An epoch captured before the move lies below the generation of the moved tree. */
  lemma CapturedBelowMoved(states: seq<Db>, steps: seq<Step>, i: nat, moved: nat, k: Hash, epoch: Epoch)
    requires IsRun(states, steps) && Inv(states[0]) && i <= moved < |steps|
    requires MovedAt(states, steps, moved, k) && Current(states[i], epoch)
    requires Inv(states[moved + 1]) && SameTree(states[moved + 1], epoch.root, k)
    ensures epoch.generation < Tree(states[moved + 1], k).generation
  {
    var x, db, step := epoch.root, states[moved], steps[moved];
    assert StepAt(states, steps, moved);
    RunKeepsInv(states, steps, i, moved);
    CommandClaims(db, step, k);
    CommandClaims(db, step, x);
    CommittedStep(db, step);
    TouchedKeys(db, Hash(step.request.root), Checked(step.request).value, Committed(db, step).value, x);
    MoveRaises(db, step, x);
    assert Tree(states[i], x).generation <= Tree(db, x).generation;
  }

  /** Hence it cannot be current for that tree later, while nothing newer acts on it. */
  lemma ObsoleteEpochElsewhere(states: seq<Db>, steps: seq<Step>, i: nat, moved: nat, n: nat, k: Hash, epoch: Epoch)
    requires IsRun(states, steps) && Inv(states[0]) && i <= moved < n < |states|
    requires MovedAt(states, steps, moved, k)
    requires Inv(states[moved + 1]) && Inv(states[n]) && k in states[moved + 1].keys
    requires Undisturbed(states[moved + 1], states[n], k)
    requires Current(states[i], epoch) && Current(states[n], epoch)
    ensures epoch.root != states[n].keys[k].root
  {
    hide Next, Committed;
    RunKeepsInv(states, steps, i, moved + 1);
    if epoch.root == states[n].keys[k].root {
      assert SameTree(states[n], epoch.root, k);
      CapturedBelowMoved(states, steps, i, moved, k, epoch);
    }
  }

  /** One more obsolete step leaves the moved tree as it was. */
  lemma MovedTreeStep(states: seq<Db>, steps: seq<Step>, moved: nat, n: nat, k: Hash)
    requires IsRun(states, steps) && Inv(states[0]) && moved < n < |steps|
    requires MovedAt(states, steps, moved, k) && ObsoleteStep(states, steps, moved, n, k)
    requires Inv(states[moved + 1]) && Inv(states[n]) && k in states[moved + 1].keys && Claimed(states[n], k)
    requires Undisturbed(states[moved + 1], states[n], k)
    ensures Inv(states[n + 1]) && Undisturbed(states[n], states[n + 1], k)
  {
    var db, step := states[n], steps[n];
    assert StepAt(states, steps, n);
    if step.BindStep? && step.epoch.Some? && Current(db, step.epoch.value) {
      var i :| 0 <= i <= moved && Current(states[i], step.epoch.value);
      ObsoleteEpochElsewhere(states, steps, i, moved, n, k, step.epoch.value);
    }
    StepElsewhere(db, step, k);
  }

  /** Between the move and state `n` the moved tree of `k` is still there and undisturbed. */
  ghost predicate StillMoved(states: seq<Db>, moved: nat, n: nat, k: Hash)
    requires moved + 1 < |states| && n < |states|
  {
    && Inv(states[moved + 1]) && Inv(states[n])
    && k in states[moved + 1].keys && Claimed(states[n], k)
    && Undisturbed(states[moved + 1], states[n], k)
  }

  lemma StillMovedStart(states: seq<Db>, steps: seq<Step>, moved: nat, k: Hash)
    requires IsRun(states, steps) && Inv(states[0]) && moved < |steps| && MovedAt(states, steps, moved, k)
    ensures StillMoved(states, moved, moved + 1, k)
  {
    assert StepAt(states, steps, moved);
    RunKeepsInv(states, steps, moved, moved);
    CommandClaims(states[moved], steps[moved], k);
  }

  lemma StillMovedNext(states: seq<Db>, steps: seq<Step>, moved: nat, n: nat, k: Hash)
    requires IsRun(states, steps) && Inv(states[0]) && moved < n < |steps|
    requires MovedAt(states, steps, moved, k) && ObsoleteStep(states, steps, moved, n, k)
    requires StillMoved(states, moved, n, k)
    ensures StillMoved(states, moved, n + 1, k)
  {
    hide Next, Committed, MovedAt, ObsoleteStep, Bounded, Unsplit, References, RowOk;
    MovedTreeStep(states, steps, moved, n, k);
    assert StepAt(states, steps, n);
    StepKeepsInv(states[n], steps[n]);
    RunKeepsInv(states, steps, moved + 1, n);
    UndisturbedTransitive(states[moved + 1], states[n], states[n + 1], k);
  }

  lemma {:induction false} MovedTreeUndisturbed(states: seq<Db>, steps: seq<Step>, moved: nat, n: nat, k: Hash)
    requires IsRun(states, steps) && Inv(states[0]) && moved < n <= |steps|
    requires MovedAt(states, steps, moved, k) && OnlyObsolete(states, steps, moved, n, k)
    ensures StillMoved(states, moved, n, k)
    decreases n
  {
    hide Next, Committed, Inv, StillMoved, IsRun, MovedAt, ObsoleteStep;
    if n == moved + 1 {
      StillMovedStart(states, steps, moved, k);
    } else {
      MovedTreeUndisturbed(states, steps, moved, n - 1, k);
      StillMovedNext(states, steps, moved, n - 1, k);
    }
  }

  /**
    No obsolete connection restores an old account: after a command moves a tree to account
    `a`, and for as long as only pruning, account changes, legacy binds and epochs captured
    before the move act on that tree, every key of the tree that still has a sticky row is
    routed to `a`.
   */
  lemma NoObsoleteRestore(states: seq<Db>, steps: seq<Step>, moved: nat, n: nat, k: Hash)
    requires IsRun(states, steps) && Inv(states[0]) && moved < n <= |steps|
    requires MovedAt(states, steps, moved, k) && OnlyObsolete(states, steps, moved, n, k)
    ensures var d := Committed(states[moved], steps[moved]).value;
            && d.effective.Some?
            && k in states[n].keys
            && (k in states[n].affinity ==> states[n].affinity[k] == Route(d.keys[k], d.effective.value, d.generation))
  {
    assert StepAt(states, steps, moved);
    RunKeepsInv(states, steps, moved, moved);
    CommittedStep(states[moved], steps[moved]);
    MovedTreeUndisturbed(states, steps, moved, n, k);
  }
}
