/** What a committed route command achieves, and what repeating it does. */
module RouteOutcomes {
  import opened Base
  import opened RouteKeys
  import opened Routes
  import opened RouteInvariant
  import opened RouteBinds
  import opened RouteRuns

  /** A rerouted tree is never split between accounts, in any state of any run. */
  lemma ReroutedTreeNeverSplits(states: seq<Db>, steps: seq<Step>, n: nat, k: Hash)
    requires IsRun(states, steps) && Initial(states[0]) && n < |states|
    requires k in states[n].keys && k in states[n].affinity
    ensures Inv(states[n])
    ensures var row := Tree(states[n], k);
            row.action == Some(Reroute) && row.effective.Some? ==>
              && states[n].affinity[k].account == row.effective.value
              && states[n].affinity[k].generation == row.generation
  {
    hide Next;
    InitialInv(states[0]);
    RunKeepsInv(states, steps, n, n);
    assert Follows(states[n], k);
  }

  /** Keys once in one tree stay together in every later state. */
  lemma TreesOnlyCoarsen(states: seq<Db>, steps: seq<Step>, i: nat, j: nat, a: Hash, b: Hash)
    requires IsRun(states, steps) && Initial(states[0]) && i <= j < |states|
    requires SameTree(states[i], a, b)
    ensures SameTree(states[j], a, b)
  {
    hide Next;
    InitialInv(states[0]);
    RunKeepsInv(states, steps, i, j);
  }

  /**
    After any committed command with an effective account, whether applied, fallen back or a
    no-op, every key of the merged tree has a sticky row for that account, under the key's own
    kind and at the root's generation.
   */
  lemma CommandRoutesWholeTree(db: Db, step: Step, k: Hash)
    requires Inv(db) && StepOk(db, step) && Committed(db, step).Some? && Committed(db, step).value.effective.Some?
    requires k in Next(db, step).keys && Next(db, step).keys[k].root == Hash(step.request.root)
    ensures var after, d := Next(db, step), Committed(db, step).value;
            && Inv(after)
            && k in after.affinity
            && after.affinity[k] == Route(after.keys[k].kind, d.effective.value, Tree(after, k).generation)
            && Tree(after, k).effective == d.effective
  {
    CommandClaims(db, step, k);
    CommittedStep(db, step);
  }

  // ---------------------------------------------------------------- repetition

  /** `keys` is the whole tree of `root`, with the kinds it is stored under. */
  ghost predicate TreeIs(db: Db, root: Hash, keys: map<Hash, Kind>) {
    && root in db.roots && root in keys
    && (forall k :: k in keys <==> k in db.keys && db.keys[k].root == root)
    && (forall k | k in keys :: db.keys[k].kind == keys[k])
  }

  ghost predicate Within(input: map<Hash, Kind>, keys: map<Hash, Kind>) {
    forall k | k in input :: k in keys && keys[k] == input[k]
  }

  lemma SettledKeys(db: Db, root: Hash, input: map<Hash, Kind>, keys: map<Hash, Kind>)
    requires TreeIs(db, root, keys) && root in input && Within(input, keys)
    ensures PriorRoots(db.keys, input) == {root}
    ensures KeysUnder(db.keys, {root}) == keys.Keys
    ensures MergedKeys(db.keys, {root}, input) == keys
    ensures !MappingChanged(db.keys, true, root, {root}, keys)
  {
    assert db.keys[root].root in PriorRoots(db.keys, input);
    assert |KeysUnder(db.keys, {root})| == |keys| by {
      assert KeysUnder(db.keys, {root}) == keys.Keys;
    }
  }

  lemma SettledGeneration(db: Db, root: Hash, keys: map<Hash, Kind>)
    requires Inv(db) && TreeIs(db, root, keys)
    ensures RootGenerations(db.roots, {root}) == {db.roots[root].generation}
    ensures var routed := RoutedKeys(db.accounts, db.affinity, keys.Keys);
            MaxOf(RouteGenerations(db.affinity, routed)) <= db.roots[root].generation
  {
    assert db.roots[root].generation in RootGenerations(db.roots, {root});
  }

  /** A command whose keys all lie in one tree reads that tree, unchanged and at its own generation. */
  lemma SettledRead(db: Db, root: Hash, input: map<Hash, Kind>, keys: map<Hash, Kind>, target: Option<Account>,
      env: Env)
    requires Inv(db) && TreeIs(db, root, keys) && root in input && Within(input, keys)
    ensures var s := Read(db, true, root, input, target, env);
            && s.prior == {root} && s.keys == keys && !s.remapped
            && Newest(s) == db.roots[root].generation
            && s.generations == RouteGenerations(db.affinity, RoutedKeys(db.accounts, db.affinity, keys.Keys))
            && s.targetKnown == (target.Some? ==> target.value in db.accounts)
            && s.changed == match EffectiveAccount(target, env)
                            case Some(a) => |ChangedKeys(db.accounts, db.affinity, keys, a)|
                            case None => 0
  {
    hide Inv, TreeIs, Within, MappingChanged, PriorRoots, MergedKeys, RootGenerations, RouteGenerations, RoutedKeys,
         ChangedKeys, PreviousLabels;
    SettledKeys(db, root, input, keys);
    SettledGeneration(db, root, keys);
    assert {root} + {root} == {root};
  }

  lemma CommandTree(db: Db, step: Step)
    requires Inv(db) && StepOk(db, step) && Committed(db, step).Some?
    ensures var d, root := Committed(db, step).value, Hash(step.request.root);
            var input := Checked(step.request);
            && Inv(Next(db, step))
            && TreeIs(Next(db, step), root, d.keys)
            && input.Some? && root in input.value && Within(input.value, d.keys)
            && Next(db, step).roots[root].generation == d.generation
  {
    StepKeepsInv(db, step);
    CommittedStep(db, step);
    forall k
      ensures k in Committed(db, step).value.keys <==>
              k in Next(db, step).keys && Next(db, step).keys[k].root == Hash(step.request.root)
    {
      CommandClaims(db, step, k);
    }
  }

  /** No sticky row of the tree disagrees with what the command left. */
  lemma SecondRoutes(db: Db, step: Step)
    requires Inv(db) && StepOk(db, step) && Committed(db, step).Some? && Committed(db, step).value.effective.Some?
    ensures var d, after := Committed(db, step).value, Next(db, step);
            var generations := RouteGenerations(after.affinity,
                RoutedKeys(after.accounts, after.affinity, d.keys.Keys));
            && (forall g | g in generations :: g == d.generation)
            && ChangedKeys(after.accounts, after.affinity, d.keys, d.effective.value) == {}
  {
    var d, after := Committed(db, step).value, Next(db, step);
    StepKeepsInv(db, step);
    CommittedStep(db, step);
    forall k | k in d.keys
      ensures k in after.affinity && after.affinity[k] == Route(d.keys[k], d.effective.value, d.generation)
              && after.affinity[k].account in after.accounts
    {
      CommandClaims(db, step, k);
      CommandRoutesWholeTree(db, step, k);
    }
  }

  /** The same command again, at a later instant with other live connections. */
  function Again(step: Step, live: set<Account>): Step
    requires step.Command?
  {
    step.(env := step.env.(live := live))
  }

  /** A settled command does not move: it keeps the tree, the account and the generation. */
  lemma SettledDecide(db: Db, root: Hash, input: map<Hash, Kind>, keys: map<Hash, Kind>, target: Option<Account>,
      env: Env)
    requires Inv(db) && TreeIs(db, root, keys) && root in input && Within(input, keys)
    requires target.Some? ==> target.value in db.accounts
    requires match EffectiveAccount(target, env)
             case Some(a) =>
               && env.live <= {a}
               && ChangedKeys(db.accounts, db.affinity, keys, a) == {}
               && (forall g | g in RouteGenerations(db.affinity, RoutedKeys(db.accounts, db.affinity, keys.Keys)) ::
                     g == db.roots[root].generation)
             case None => true
    ensures var d := Decide(db, true, root, input, target, env);
            && d.Ok? && d.value.roots == {root} && d.value.keys == keys
            && d.value.effective == EffectiveAccount(target, env)
            && !d.value.move && d.value.generation == db.roots[root].generation
  {
    hide Inv, TreeIs, Within, Read, ChangedKeys, RouteGenerations, RoutedKeys;
    SettledRead(db, root, input, keys, target, env);
    var s := Read(db, true, root, input, target, env);
    assert !RequiresMove(s, EffectiveAccount(target, env), env);
    assert s.prior + {root} == {root};
  }

  lemma SecondDecision(db: Db, step: Step, live: set<Account>)
    requires Inv(db) && StepOk(db, step) && Committed(db, step).Some?
    requires Committed(db, step).value.effective.Some? ==> live <= {Committed(db, step).value.effective.value}
    ensures var d, after := Committed(db, step).value, Next(db, step);
            var second := Committed(after, Again(step, live));
            && second.Some?
            && second.value.roots == {Hash(step.request.root)}
            && second.value.keys == d.keys && second.value.effective == d.effective
            && !second.value.move && second.value.generation == d.generation
  {
    hide Next, Inv, Within, Checked, Decide, ChangedKeys, RouteGenerations, RoutedKeys, Sound;
    var d, after, root := Committed(db, step).value, Next(db, step), Hash(step.request.root);
    CommandTree(db, step);
    TargetKept(db, step);
    if d.effective.Some? {
      SecondRoutes(db, step);
    }
    SettledDecide(after, root, Checked(step.request).value, d.keys, step.request.target, step.env.(live := live));
  }

  lemma TargetKept(db: Db, step: Step)
    requires Inv(db) && StepOk(db, step) && Committed(db, step).Some?
    ensures step.request.target.Some? ==> step.request.target.value in Next(db, step).accounts
    ensures Committed(db, step).value.effective == EffectiveAccount(step.request.target, step.env)
  {
    hide Next, Committed, Checked, Inv;
    CommittedStep(db, step);
  }

  lemma RewriteNothing(db: Db, root: Hash, action: Action, target: Option<Account>, d: Decision)
    requires TreeIs(db, root, d.keys) && d.roots == {root} && !d.move
    ensures var after := Commit(db, root, action, target, d);
            && after.keys == db.keys && after.affinity == db.affinity && after.accounts == db.accounts
            && after.roots == db.roots[root := CommandRow(action, target, d)]
  {
  }

  /**
    Repeating a command with the same eligibility and choice, while no live connection uses
    another account, leaves every key, sticky row and generation as it is; only the recorded
    status of the root may change.
   */
  lemma RepeatIsQuiet(db: Db, step: Step, live: set<Account>)
    requires Inv(db) && StepOk(db, step) && Committed(db, step).Some?
    requires Committed(db, step).value.effective.Some? ==> live <= {Committed(db, step).value.effective.value}
    ensures var once, twice := Next(db, step), Next(Next(db, step), Again(step, live));
            var root := Hash(step.request.root);
            && twice.keys == once.keys && twice.affinity == once.affinity && twice.accounts == once.accounts
            && root in once.roots && root in twice.roots
            && twice.roots == once.roots[root := once.roots[root].(status := twice.roots[root].status)]
  {
    var once, root, again := Next(db, step), Hash(step.request.root), Again(step, live);
    CommandTree(db, step);
    CommittedStep(db, step);
    hide Next, Committed, TreeIs, Sound, Within, Checked;
    assert once.accounts == db.accounts;
    SecondDecision(db, step, live);
    CommittedStep(once, again);
    RewriteNothing(once, root, step.request.action, step.request.target, Committed(once, again).value);
  }
}
