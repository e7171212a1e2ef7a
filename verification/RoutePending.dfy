/**
  Pending commands: what the scheduler rebuilds from a pending root, when it is accepted, and
  when a tree stops being pending.
 */
module RoutePending {
  import opened Base
  import opened RouteKeys
  import opened Routes
  import opened RouteInvariant
  import opened RouteBinds
  import opened RouteRuns
  import opened RouteOutcomes

  // ---------------------------------------------------------------- what is stored

  /** A key as the tables store it: valid, and already trimmed. */
  ghost predicate Storable(h: Hash, kind: Kind) {
    WellFormed(RawKey(h.text, kind.name)) && Normal(RawKey(h.text, kind.name)) == RouteKey(h, kind)
  }

  ghost predicate Stored(db: Db) {
    forall k | k in db.keys :: Storable(k, db.keys[k].kind)
  }

  lemma ValidatedStorable(raw: seq<RawKey>, k: RouteKey)
    requires Validate(raw).Some? && k in Validate(raw).value
    ensures Storable(k.hash, k.kind)
  {
    ValidationExact(raw);
    assert k in NormalSet(raw);
    var i :| 0 <= i < |raw| && Normal(raw[i]) == k;
    assert KindChar(k.kind.name[0]) && KindChar(k.kind.name[|k.kind.name| - 1]);
  }

  lemma TableStorable(raw: seq<RawKey>, h: Hash)
    requires Validate(raw).Some? && Distinct(Validate(raw).value) && h in KeyTable(Validate(raw).value)
    ensures Storable(h, KeyTable(Validate(raw).value)[h])
  {
    var k :| k in Validate(raw).value && k.hash == h;
    ValidatedStorable(raw, k);
  }

  lemma ClaimKeepsStored(db: Db, root: Hash, input: map<Hash, Kind>)
    requires Stored(db) && forall k | k in input :: Storable(k, input[k])
    ensures Stored(db.(keys := ClaimKeys(db.keys, root, input)))
  {
  }

  lemma MergedStorable(db: Db, roots: set<Hash>, input: map<Hash, Kind>)
    requires Stored(db) && forall k | k in input :: Storable(k, input[k])
    ensures forall k | k in MergedKeys(db.keys, roots, input) :: Storable(k, MergedKeys(db.keys, roots, input)[k])
  {
  }

  lemma CommandKeepsStored(db: Db, step: Step)
    requires Inv(db) && StepOk(db, step) && Stored(db) && step.Command?
    ensures Stored(Next(db, step))
  {
    hide Storable, Next, Committed;
    if Committed(db, step).None? {
      UncommittedStep(db, step);
    } else {
      CommittedStep(db, step);
      var input, d := Checked(step.request).value, Committed(db, step).value;
      CollectSound(step.request.keys);
      forall k | k in input ensures Storable(k, input[k]) {
        TableStorable(step.request.keys, k);
      }
      MergedStorable(db, d.roots, input);
      ClaimKeepsStored(db, Hash(step.request.root), d.keys);
    }
  }

  lemma BindKeepsStored(db: Db, raw: seq<RawKey>, account: Account, epoch: Option<Epoch>)
    requires Stored(db)
    ensures Stored(Bind(db, raw, account, epoch).0)
  {
    hide Storable, Validate, KeyTable, BindRoutes, LegacyRoutes, FollowAccount;
    if Validate(raw).Some? {
      ValidationExact(raw);
      var input := KeyTable(Validate(raw).value);
      forall k | k in input ensures Storable(k, input[k]) {
        TableStorable(raw, k);
      }
    }
  }

  /** Every step stores only keys that validation would accept again. */
  lemma StepKeepsStored(db: Db, step: Step)
    requires Inv(db) && StepOk(db, step) && Stored(db)
    ensures Stored(Next(db, step))
  {
    hide Storable;
    match step
    case Command(_, _) => CommandKeepsStored(db, step);
    case BindStep(raw, account, epoch) => BindKeepsStored(db, raw, account, epoch);
    case PruneStep(_) =>
    case DeleteStep(_) =>
    case AddStep(_, _) =>
  }

  lemma InitialSound(db: Db)
    requires Initial(db)
    ensures Inv(db) && Stored(db)
  {
    InitialInv(db);
  }

  /** In every state of every run the tables hold only keys that validation would accept again. */
  lemma {:induction false} RunKeepsStored(states: seq<Db>, steps: seq<Step>, n: nat)
    requires IsRun(states, steps) && Initial(states[0]) && n < |states|
    ensures Inv(states[n]) && Stored(states[n])
  {
    hide Stored, Inv, Next, StepOk, Initial, Grows;
    InitialSound(states[0]);
    RunKeepsInv(states, steps, 0, n);
    if n > 0 {
      RunKeepsStored(states, steps, n - 1);
      assert StepAt(states, steps, n - 1);
      StepKeepsStored(states[n - 1], steps[n - 1]);
    }
  }

  // ---------------------------------------------------------------- retries

  function TreeTable(db: Db, root: Hash): map<Hash, Kind> {
    map k | k in KeysUnder(db.keys, {root}) :: db.keys[k].kind
  }

  function Entries(table: map<Hash, Kind>): set<RouteKey> {
    set h | h in table :: RouteKey(h, table[h])
  }

  /**
    The request the scheduler rebuilds for a pending root: every key of the tree, the
    requested account if it still exists, and a rebalance if it does not.
   */
  ghost predicate IsRetry(db: Db, root: Hash, request: Request) {
    && root in db.roots && db.roots[root].status == Some(Pending) && db.roots[root].action.Some?
    && request.root == root.text
    && |request.keys| == |TreeTable(db, root)|
    && (forall i | 0 <= i < |request.keys| :: WellFormed(request.keys[i]))
    && NormalSet(request.keys) == Entries(TreeTable(db, root))
    && request.target == db.roots[root].requested
    && request.action == (if db.roots[root].requested.None? then Rebalance else Reroute)
    && !request.dryRun
  }

  lemma TableOfEntries(keys: seq<RouteKey>, table: map<Hash, Kind>)
    requires Distinct(keys) && ElementsOf(keys) == Entries(table)
    ensures KeyTable(keys) == table
  {
    var input := KeyTable(keys);
    forall h | h in table ensures h in input && input[h] == table[h] {
      assert RouteKey(h, table[h]) in ElementsOf(keys);
    }
    forall h | h in input ensures h in table {
      var key :| key in keys && key.hash == h;
      assert key in ElementsOf(keys);
    }
  }

  lemma StoredHash(h: Hash, kind: Kind)
    requires Storable(h, kind)
    ensures ValidHash(h.text)
  {
  }

  lemma RetryTable(db: Db, root: Hash)
    requires Rooted(db) && Stored(db) && root in db.roots
    ensures root in TreeTable(db, root) && ValidHash(root.text)
    ensures Functional(Entries(TreeTable(db, root)))
    ensures TreeIs(db, root, TreeTable(db, root))
  {
    hide Storable, ValidHash;
    StoredHash(root, db.keys[root].kind);
  }

  lemma RetryChecked(db: Db, root: Hash, request: Request)
    requires Inv(db) && Stored(db) && IsRetry(db, root, request)
    ensures Checked(request).Some? <==> |TreeTable(db, root)| <= MAX_ROUTE_KEYS
    ensures Checked(request).Some? ==> Checked(request).value == TreeTable(db, root)
  {
    hide Validate, KeyTable, NormalSet, TreeTable, Entries, Functional, Distinct, Stored, Rooted, References, RowOk,
         Bounded, Unsplit, TreeIs, WellFormed, ElementsOf;
    RetryTable(db, root);
    ValidationExact(request.keys);
    if Validate(request.keys).Some? {
      TableOfEntries(Validate(request.keys).value, TreeTable(db, root));
    }
  }

  /** A rebuilt request passes validation exactly when its tree has at most 500 keys. */
  lemma RetryAcceptedExactly(states: seq<Db>, steps: seq<Step>, n: nat, root: Hash, request: Request)
    requires IsRun(states, steps) && Initial(states[0]) && n < |states| && IsRetry(states[n], root, request)
    ensures Checked(request).Some? <==> |TreeTable(states[n], root)| <= MAX_ROUTE_KEYS
    ensures Checked(request).Some? ==> Checked(request).value == TreeTable(states[n], root)
  {
    RunKeepsStored(states, steps, n);
    hide Inv, Stored;
    RetryChecked(states[n], root, request);
  }

  /** A pending tree with more keys than one request may carry is refused whatever accounts become eligible. */
  lemma OversizedPendingIsStuck(db: Db, root: Hash, request: Request, env: Env)
    requires Inv(db) && Stored(db) && IsRetry(db, root, request)
    requires |TreeTable(db, root)| > MAX_ROUTE_KEYS
    ensures Apply(db, request, env) == (db, Err(BadRequest))
  {
    RetryChecked(db, root, request);
  }

  lemma RetryDecision(db: Db, root: Hash, request: Request, env: Env)
    requires Inv(db) && Stored(db) && IsRetry(db, root, request) && EnvOk(db, env)
    requires |TreeTable(db, root)| <= MAX_ROUTE_KEYS && db.roots[root].generation < I64_MAX
    ensures var d := Committed(db, Command(request, env));
            && d.Some? && d.value.roots == {root} && d.value.keys == TreeTable(db, root)
            && d.value.effective == EffectiveAccount(request.target, env)
            && (d.value.response.status == Pending <==> d.value.effective.None?)
  {
    hide Rooted, RowOk, Bounded, Unsplit, Stored, Read, TreeIs, Checked, TreeTable, NormalSet, Entries, WellFormed;
    RetryChecked(db, root, request);
    RetryTable(db, root);
    var input := Checked(request).value;
    SettledRead(db, root, input, input, request.target, env);
    var s := Read(db, true, root, input, request.target, env);
    assert s.prior + {root} == {root};
  }

  /** `k` is routed as the settled row of its tree says. */
  ghost predicate Served(db: Db, root: Hash, k: Hash)
    requires root in db.roots
  {
    var row := db.roots[root];
    && k in db.keys && db.keys[k].root == root && row.effective.Some?
    && k in db.affinity && db.affinity[k] == Route(db.keys[k].kind, row.effective.value, row.generation)
  }

  /** Otherwise, once some account can serve it, the retry ends the pending state and routes the whole tree. */
  lemma PendingRetrySucceeds(db: Db, root: Hash, request: Request, env: Env)
    requires Inv(db) && Stored(db) && IsRetry(db, root, request) && EnvOk(db, env) && env.choice.Some?
    requires |TreeTable(db, root)| <= MAX_ROUTE_KEYS && db.roots[root].generation < I64_MAX
    ensures var after := Next(db, Command(request, env));
            && root in after.roots && after.roots[root].status.Some? && after.roots[root].status != Some(Pending)
            && after.roots[root].effective == EffectiveAccount(request.target, env)
            && forall k | k in TreeTable(db, root) :: Served(after, root, k)
  {
    var step := Command(request, env);
    var after := Next(db, step);
    RetryDecision(db, root, request, env);
    hide TreeTable, IsRetry, Stored, Committed, Next;
    CommandTree(db, step);
    CommittedStep(db, step);
    forall k | k in TreeTable(db, root) ensures Served(after, root, k) {
      CommandRoutesWholeTree(db, step, k);
    }
  }

  lemma TableSize(db: Db, root: Hash)
    ensures |TreeTable(db, root)| == |KeysUnder(db.keys, {root})|
  {
    assert TreeTable(db, root).Keys == KeysUnder(db.keys, {root});
  }

  /** A new key claimed for a tree makes it one key larger. */
  lemma ClaimOneMore(before: Db, after: Db, root: Hash, alias: Hash, kind: Kind)
    requires alias !in before.keys && after.keys == ClaimKeys(before.keys, root, map[alias := kind])
    ensures |TreeTable(after, root)| == |TreeTable(before, root)| + 1
  {
    hide TreeTable;
    TableSize(before, root);
    TableSize(after, root);
    assert KeysUnder(after.keys, {root}) == KeysUnder(before.keys, {root}) + {alias};
  }

  // ---------------------------------------------------------------- when pending ends

  /** The tree of `k` waits for an account. */
  ghost predicate Waits(db: Db, k: Hash)
    requires Rooted(db)
  {
    k in db.keys && Tree(db, k).status == Some(Pending)
  }

  /** A committed command that touches the tree and finds an account for it. */
  ghost predicate Settles(db: Db, step: Step, k: Hash) {
    Touches(db, step, k) && Committed(db, step).value.effective.Some?
  }

  /** A bind at the current epoch of a tree that waits for a reroute, by a connection that already has an account. */
  ghost predicate Cancels(db: Db, step: Step, k: Hash)
    requires Rooted(db) && k in db.keys
  {
    && step.BindStep? && step.epoch.Some? && Current(db, step.epoch.value)
    && step.epoch.value.root == db.keys[k].root && Tree(db, k).action == Some(Reroute)
    && Validate(step.raw).Some? && step.raw != [] && step.account in db.accounts
    && forall x | x in NormalSet(step.raw) && x.hash in db.keys :: db.keys[x.hash].root == db.keys[k].root
  }

  lemma CommandEndsPending(db: Db, step: Step, k: Hash)
    requires Inv(db) && StepOk(db, step) && step.Command? && Waits(db, k)
    ensures Inv(Next(db, step)) && k in Next(db, step).keys
    ensures Waits(Next(db, step), k) <==> !Settles(db, step, k)
  {
    StepKeepsInv(db, step);
    if Committed(db, step).None? {
      UncommittedStep(db, step);
    } else {
      CommittedStep(db, step);
      var d := Committed(db, step).value;
      CommitKey(db, Hash(step.request.root), Checked(step.request).value, step.request.action, step.request.target, d,
          k);
      hide Committed, Next, Inv, Rooted;
    }
  }

  /** Whether a bind names keys of the tree only, or keys of no tree. */
  lemma ForeignExactly(db: Db, raw: seq<RawKey>, root: Hash)
    requires Validate(raw).Some? && Distinct(Validate(raw).value)
    ensures Foreign(db, root, KeyTable(Validate(raw).value))
            <==> exists x | x in NormalSet(raw) :: x.hash in db.keys && db.keys[x.hash].root != root
  {
    ValidationExact(raw);
    var keys := Validate(raw).value;
    var input := KeyTable(keys);
    assert ElementsOf(keys) == NormalSet(raw);
    forall x | x in NormalSet(raw) ensures x.hash in input {
      assert x in keys;
    }
    forall h | h in input ensures exists x | x in NormalSet(raw) :: x.hash == h {
      var x :| x in keys && x.hash == h;
      assert x in NormalSet(raw);
    }
  }

  lemma EpochBindEndsPending(db: Db, input: map<Hash, Kind>, account: Account, epoch: Epoch, k: Hash)
    requires Inv(db) && Waits(db, k) && Inv(BindAtEpoch(db, input, account, epoch).0)
    ensures var after := BindAtEpoch(db, input, account, epoch).0;
            && k in after.keys
            && (Waits(after, k) <==>
                  !(&& Current(db, epoch) && epoch.root == db.keys[k].root && Tree(db, k).action == Some(Reroute)
                    && account in db.accounts && !Foreign(db, epoch.root, input)))
  {
    hide BindRoutes, FollowAccount, Bounded, Unsplit, References;
  }

  lemma LegacyBindKeepsPending(db: Db, input: map<Hash, Kind>, preferred: Hash, account: Account, k: Hash)
    requires Inv(db) && Waits(db, k)
    ensures var after := BindLegacy(db, input, preferred, account).0;
            && k in after.keys && after.keys[k] == db.keys[k]
            && db.keys[k].root in after.roots && after.roots[db.keys[k].root] == Tree(db, k)
  {
    hide LegacyRoutes, LegacyRoot;
    if k in input {
      assert db.keys[k].root in PriorRoots(db.keys, input);
    }
  }

  lemma BindAtEpochEndsPending(db: Db, step: Step, k: Hash)
    requires Inv(db) && step.BindStep? && step.epoch.Some? && Waits(db, k)
    requires Validate(step.raw).Some? && step.raw != []
    ensures Inv(Next(db, step)) && k in Next(db, step).keys
    ensures Waits(Next(db, step), k) <==> !Cancels(db, step, k)
  {
    BindKeepsInv(db, step.raw, step.account, step.epoch);
    BindUnfolds(db, step.raw, step.account, step.epoch);
    var input := KeyTable(Validate(step.raw).value);
    hide Validate, Inv, NormalSet, KeyTable, BindAtEpoch, Foreign, Bind;
    ForeignExactly(db, step.raw, db.keys[k].root);
    EpochBindEndsPending(db, input, step.account, step.epoch.value, k);
  }

  lemma BindEndsPending(db: Db, step: Step, k: Hash)
    requires Inv(db) && step.BindStep? && Waits(db, k)
    ensures Inv(Next(db, step)) && k in Next(db, step).keys
    ensures Waits(Next(db, step), k) <==> !Cancels(db, step, k)
  {
    BindKeepsInv(db, step.raw, step.account, step.epoch);
    BindUnfolds(db, step.raw, step.account, step.epoch);
    hide Validate, Inv, KeyTable, BindAtEpoch, BindLegacy, PreferredRoot, Bind, Current, NormalSet;
    if Validate(step.raw).Some? && step.raw != [] {
      if step.epoch.Some? {
        BindAtEpochEndsPending(db, step, k);
      } else {
        var keys := Validate(step.raw).value;
        LegacyBindKeepsPending(db, KeyTable(keys), PreferredRoot(keys), step.account, k);
      }
    }
  }

  /**
    A tree stops waiting in exactly two ways: a command finds an account for it, or, while it
    waits for a reroute, a connection that still holds its epoch binds the account it has.
   */
  lemma PendingEndsExactly(db: Db, step: Step, k: Hash)
    requires Inv(db) && StepOk(db, step) && Waits(db, k)
    ensures Inv(Next(db, step)) && k in Next(db, step).keys
    ensures Waits(Next(db, step), k) <==> !Settles(db, step, k) && !Cancels(db, step, k)
  {
    StepKeepsInv(db, step);
    match step
    case Command(_, _) => CommandEndsPending(db, step, k);
    case BindStep(_, _, _) => BindEndsPending(db, step, k);
    case PruneStep(_) =>
    case DeleteStep(_) =>
    case AddStep(_, _) =>
  }

  ghost predicate WaitsAt(db: Db, k: Hash) { Rooted(db) && Waits(db, k) }

  ghost predicate Ends(db: Db, step: Step, k: Hash) {
    Rooted(db) && k in db.keys && (Settles(db, step, k) || Cancels(db, step, k))
  }

  lemma WaitsAfterStep(db: Db, step: Step, k: Hash)
    requires Inv(db) && StepOk(db, step) && WaitsAt(db, k)
    ensures WaitsAt(Next(db, step), k) <==> !Ends(db, step, k)
  {
    hide Next, Settles, Cancels, StepOk;
    PendingEndsExactly(db, step, k);
  }

  /** The tree of `k` waits in each of the states `i..n`. */
  ghost predicate WaitsThrough(states: seq<Db>, i: nat, n: nat, k: Hash) {
    forall m | i <= m <= n && m < |states| :: WaitsAt(states[m], k)
  }

  /** Over a run a tree waits on if and only if no step of either kind happens to it. */
  lemma {:induction false} PendingLastsExactly(states: seq<Db>, steps: seq<Step>, i: nat, n: nat, k: Hash)
    requires IsRun(states, steps) && Inv(states[0]) && i <= n < |states| && WaitsAt(states[i], k)
    ensures WaitsThrough(states, i, n, k) <==> forall m | i <= m < n :: !Ends(states[m], steps[m], k)
    decreases n - i
  {
    hide Ends, WaitsAt, Inv, Grows, StepOk, Next;
    if i < n {
      PendingLastsExactly(states, steps, i, n - 1, k);
      RunKeepsInv(states, steps, 0, n - 1);
      assert StepAt(states, steps, n - 1);
      var last := n - 1;
      if WaitsAt(states[last], k) {
        WaitsAfterStep(states[last], steps[last], k);
      }
      assert WaitsThrough(states, i, n, k) <==> WaitsThrough(states, i, last, k) && WaitsAt(states[n], k);
      assert (forall m | i <= m < n :: !Ends(states[m], steps[m], k)) <==>
        (forall m | i <= m < last :: !Ends(states[m], steps[m], k)) && !Ends(states[last], steps[last], k);
    }
  }

  /**
    In any state of any run, with an account to serve it, a pending tree is served by its retry
    if and only if it has at most 500 keys.
   */
  lemma RetrySettlesExactly(states: seq<Db>, steps: seq<Step>, n: nat, root: Hash, request: Request, env: Env)
    requires IsRun(states, steps) && Initial(states[0]) && n < |states| && IsRetry(states[n], root, request)
    requires EnvOk(states[n], env) && env.choice.Some? && states[n].roots[root].generation < I64_MAX
    ensures root in states[n].keys
    ensures Settles(states[n], Command(request, env), root) <==> |TreeTable(states[n], root)| <= MAX_ROUTE_KEYS
    ensures |TreeTable(states[n], root)| <= MAX_ROUTE_KEYS ==>
              var after := Next(states[n], Command(request, env));
              root in after.roots && forall k | k in TreeTable(states[n], root) :: Served(after, root, k)
  {
    RunKeepsStored(states, steps, n);
    hide Stored, TreeTable, IsRetry, Bounded, Unsplit, References, RowOk, StepAt;
    if |TreeTable(states[n], root)| <= MAX_ROUTE_KEYS {
      RetryDecision(states[n], root, request, env);
      PendingRetrySucceeds(states[n], root, request, env);
    } else {
      RetryChecked(states[n], root, request);
    }
  }

  // ---------------------------------------------------------------- a reroute that is cancelled

  /** A route of the merged keys is never newer than the tree its key is in. */
  lemma RoutesBelowTrees(db: Db, roots: set<Hash>, input: map<Hash, Kind>, k: Hash, bound: nat)
    requires Inv(db) && k in MergedKeys(db.keys, roots, input) && k in db.affinity
    requires forall h | h in input && h in db.keys :: db.keys[h].root in roots
    requires forall r | r in roots && r in db.roots :: db.roots[r].generation <= bound
    ensures db.affinity[k].generation <= bound
  {
    hide References, RowOk, Unsplit;
  }

  lemma NewestAtMost(db: Db, existed: bool, root: Hash, input: map<Hash, Kind>, target: Option<Account>, env: Env,
                     bound: nat)
    ensures var s := Read(db, existed, root, input, target, env);
            && s.keys == MergedKeys(db.keys, PriorRoots(db.keys, input) + {root}, input)
            && (Newest(s) <= bound
                <==> (forall g | g in RootGenerations(db.roots, PriorRoots(db.keys, input) + {root}) :: g <= bound)
                     && forall g
                         | g in RouteGenerations(db.affinity, RoutedKeys(db.accounts, db.affinity, s.keys.Keys)) ::
                          g <= bound)
  {
    hide MappingChanged, ChangedKeys, PreviousLabels, LabelOf, MergedKeys, PriorRoots, EffectiveAccount,
         RootGenerations, RouteGenerations, RoutedKeys;
  }

  lemma HighestRead(db: Db, existed: bool, root: Hash, input: map<Hash, Kind>, target: Option<Account>, env: Env,
                    bound: nat)
    requires Inv(db)
    ensures Newest(Read(db, existed, root, input, target, env)) <= bound
            <==> forall r | r in PriorRoots(db.keys, input) + {root} && r in db.roots :: db.roots[r].generation <= bound
  {
    var roots := PriorRoots(db.keys, input) + {root};
    var all := Read(db, existed, root, input, target, env).keys;
    NewestAtMost(db, existed, root, input, target, env, bound);
    assert forall h | h in input && h in db.keys :: db.keys[h].root in PriorRoots(db.keys, input);
    hide Inv, Read, Newest, MergedKeys, PriorRoots;
    forall r | r in roots && r in db.roots ensures db.roots[r].generation in RootGenerations(db.roots, roots) {}
    if forall r | r in roots && r in db.roots :: db.roots[r].generation <= bound {
      forall k | k in all && k in db.affinity ensures db.affinity[k].generation <= bound {
        RoutesBelowTrees(db, roots, input, k, bound);
      }
    }
  }

  /** The generation a command starts from is the highest among the trees it merges. */
  lemma HighestOfTrees(db: Db, step: Step, bound: nat)
    requires Inv(db) && Committed(db, step).Some?
    ensures var d := Committed(db, step).value;
            d.current <= bound <==> forall r | r in d.roots && r in db.roots :: db.roots[r].generation <= bound
  {
    var root := Hash(step.request.root);
    hide Checked, Inv, Read, Newest, RequiresMove, StatusOf;
    HighestRead(db, root in db.roots, root, Checked(step.request).value, step.request.target, step.env, bound);
    ReadPrior(db, root in db.roots, root, Checked(step.request).value, step.request.target, step.env);
  }

  lemma ReadPrior(db: Db, existed: bool, root: Hash, input: map<Hash, Kind>, target: Option<Account>, env: Env)
    ensures Read(db, existed, root, input, target, env).prior == PriorRoots(db.keys, input)
  {}

  /** A command that merges nothing starts from the generation of its own tree. */
  lemma OneTreeGeneration(db: Db, step: Step, root: Hash)
    requires Inv(db) && Committed(db, step).Some? && root in db.roots && Committed(db, step).value.roots == {root}
    ensures Committed(db, step).value.current == db.roots[root].generation
  {
    var current := Committed(db, step).value.current;
    hide Inv, Committed;
    HighestOfTrees(db, step, current);
    HighestOfTrees(db, step, db.roots[root].generation);
  }

  /** The command leaves the epoch's tree its root, and merges into it no tree of a higher generation. */
  ghost predicate KeepsEpoch(db: Db, step: Step, epoch: Epoch)
    requires Committed(db, step).Some?
  {
    && epoch.root == Hash(step.request.root)
    && forall r | r in Committed(db, step).value.roots && r in db.roots :: db.roots[r].generation <= epoch.generation
  }

  lemma PendingDecision(db: Db, root: Hash, input: map<Hash, Kind>, target: Option<Account>, env: Env, d: Decision)
    requires Sound(db, root, input, target, env, d) && d.effective.None?
    ensures d.generation == d.current && d.response.status == Pending
  {
    hide PriorRoots, MergedKeys, EffectiveAccount;
  }

  lemma CommitRoots(db: Db, root: Hash, action: Action, target: Option<Account>, d: Decision)
    ensures var after := Commit(db, root, action, target, d);
            && after.accounts == db.accounts
            && (forall r :: r in after.roots <==> r == root || (r in db.roots && r !in d.roots))
            && after.roots[root] == CommandRow(action, target, d)
  {}

  lemma PendingCommit(db: Db, step: Step)
    requires Inv(db) && StepOk(db, step) && Committed(db, step).Some? && Committed(db, step).value.effective.None?
    ensures Inv(Next(db, step)) && Committed(db, step).value.generation == Committed(db, step).value.current
    ensures Next(db, step).accounts == db.accounts
    ensures forall r :: r in Next(db, step).roots <==>
              r == Hash(step.request.root) || (r in db.roots && r !in Committed(db, step).value.roots)
    ensures Next(db, step).roots[Hash(step.request.root)]
         == CommandRow(step.request.action, step.request.target, Committed(db, step).value)
    ensures Committed(db, step).value.response.status == Pending
  {
    assert step.Command?;
    hide *;
    var d := Committed(db, step).value;
    StepKeepsInv(db, step);
    CommittedStep(db, step);
    PendingDecision(db, Hash(step.request.root), Checked(step.request).value, step.request.target, step.env, d);
    CommitRoots(db, Hash(step.request.root), step.request.action, step.request.target, d);
  }

  lemma CurrentFromParts(before: map<Hash, Root>, after: Db, root: Hash, merged: set<Hash>, epoch: Epoch)
    requires forall r :: r in after.roots <==> r == root || (r in before && r !in merged)
    requires epoch.root in merged && root in after.roots
    ensures Current(after, epoch) <==> epoch.root == root && after.roots[root].generation == epoch.generation
  {}

  lemma HighestIsEpochs(db: Db, step: Step, epoch: Epoch)
    requires Inv(db) && Committed(db, step).Some? && Current(db, epoch) && epoch.root in Committed(db, step).value.roots
    ensures var d := Committed(db, step).value;
            d.current == epoch.generation
            <==> forall r | r in d.roots && r in db.roots :: db.roots[r].generation <= epoch.generation
  {
    var current := Committed(db, step).value.current;
    hide Inv, Committed;
    HighestOfTrees(db, step, epoch.generation);
    HighestOfTrees(db, step, current);
  }

  /** A command that finds no account leaves the epoch current exactly then. */
  lemma EpochSurvivesExactly(db: Db, step: Step, epoch: Epoch)
    requires Inv(db) && StepOk(db, step) && Committed(db, step).Some? && Committed(db, step).value.effective.None?
    requires Current(db, epoch) && Touches(db, step, epoch.root)
    ensures Current(Next(db, step), epoch) <==> KeepsEpoch(db, step, epoch)
  {
    assert db.keys[epoch.root].root == epoch.root;
    hide Inv, Next, Committed, Current, StepOk;
    var d := Committed(db, step).value;
    PendingCommit(db, step);
    HighestIsEpochs(db, step, epoch);
    CurrentFromParts(db.roots, Next(db, step), Hash(step.request.root), d.roots, epoch);
  }

  lemma TouchedWaits(db: Db, step: Step, k: Hash)
    requires Inv(db) && StepOk(db, step) && Committed(db, step).Some? && Committed(db, step).value.effective.None?
    requires Touches(db, step, k)
    ensures WaitsAt(Next(db, step), k) && Next(db, step).keys[k].root == Hash(step.request.root)
  {
    PendingCommit(db, step);
    CommittedStep(db, step);
    var d := Committed(db, step).value;
    CommitKey(db, Hash(step.request.root), Checked(step.request).value, step.request.action, step.request.target, d, k);
    hide Committed, Next, Checked;
  }

  lemma MergedNotForeign(db: Db, step: Step, raw: seq<RawKey>)
    requires Inv(db) && StepOk(db, step) && Committed(db, step).Some?
    requires forall x | x in NormalSet(raw) && x.hash in db.keys :: x.hash in Committed(db, step).value.keys
    ensures forall x | x in NormalSet(raw) && x.hash in Next(db, step).keys ::
              Next(db, step).keys[x.hash].root == Hash(step.request.root)
  {
    CommittedStep(db, step);
    hide Committed, NormalSet, Inv, Checked;
    forall x | x in NormalSet(raw) && x.hash in Next(db, step).keys
      ensures Next(db, step).keys[x.hash].root == Hash(step.request.root)
    {
      CommandClaims(db, step, x.hash);
    }
  }

  /**
    A reroute that finds no account changes no route. If it also leaves the epoch of an open
    connection current, the connection's next bind gives the tree back its old account, ends the
    waiting, and leaves nothing to retry, whatever account was asked for. Otherwise that bind is
    refused.
   */
  lemma OldConnectionCancelsReroute(db: Db, step: Step, epoch: Epoch, raw: seq<RawKey>, account: Account)
    requires Inv(db) && StepOk(db, step) && Committed(db, step).Some? && Committed(db, step).value.effective.None?
    requires step.request.action == Reroute && Current(db, epoch) && Touches(db, step, epoch.root)
    requires Validate(raw).Some? && raw != [] && account in db.accounts
    requires forall x | x in NormalSet(raw) && x.hash in db.keys :: x.hash in Committed(db, step).value.keys
    ensures var waiting := Next(db, step);
            var bound := Bind(waiting, raw, account, Some(epoch));
            && WaitsAt(waiting, epoch.root)
            && (!KeepsEpoch(db, step, epoch) ==> bound == (waiting, Ok(false)))
            && (KeepsEpoch(db, step, epoch) ==>
                  && bound.1 == Ok(true)
                  && epoch.root in bound.0.roots && bound.0.roots[epoch.root].effective == Some(account)
                  && bound.0.roots[epoch.root].status
                     == Some(if step.request.target == Some(account) then Applied else Fallback)
                  && forall request :: !IsRetry(bound.0, epoch.root, request))
  {
    var waiting := Next(db, step);
    hide Committed, Next, Checked, Inv, NormalSet, Validate, Touches, StepOk, WaitsAt, Bind, KeepsEpoch;
    EpochSurvivesExactly(db, step, epoch);
    PendingCommit(db, step);
    TouchedWaits(db, step, epoch.root);
    MergedNotForeign(db, step, raw);
    if KeepsEpoch(db, step, epoch) {
      KeptRoot(db, step, epoch);
      CancelBinds(waiting, epoch, raw, account);
    } else {
      LostEpochRefused(waiting, epoch, raw, account);
    }
  }

  lemma KeptRoot(db: Db, step: Step, epoch: Epoch)
    requires Committed(db, step).Some? && KeepsEpoch(db, step, epoch)
    ensures epoch.root == Hash(step.request.root)
  {
    hide Committed;
  }

  lemma LostEpochRefused(db: Db, epoch: Epoch, raw: seq<RawKey>, account: Account)
    requires !Current(db, epoch) && Validate(raw).Some? && raw != []
    ensures Bind(db, raw, account, Some(epoch)) == (db, Ok(false))
  {
    BindUnfolds(db, raw, account, Some(epoch));
    hide Validate, Bind, KeyTable, Current;
  }

  lemma CancelBinds(db: Db, epoch: Epoch, raw: seq<RawKey>, account: Account)
    requires Inv(db) && Current(db, epoch) && account in db.accounts && Validate(raw).Some? && raw != []
    requires db.roots[epoch.root].action == Some(Reroute) && db.roots[epoch.root].effective != Some(account)
    requires forall x | x in NormalSet(raw) && x.hash in db.keys :: db.keys[x.hash].root == epoch.root
    ensures var bound := Bind(db, raw, account, Some(epoch));
            && bound.1 == Ok(true) && epoch.root in bound.0.roots
            && bound.0.roots[epoch.root].effective == Some(account)
            && bound.0.roots[epoch.root].status
               == Some(if db.roots[epoch.root].requested == Some(account) then Applied else Fallback)
  {
    BindUnfolds(db, raw, account, Some(epoch));
    hide Validate, NormalSet, KeyTable, Bind, Foreign, BindRoutes, FollowAccount, ClaimKeys, Bounded, Unsplit,
        References;
    ForeignExactly(db, raw, epoch.root);
  }

  // ---------------------------------------------------------------- a tree that grows while it waits

  lemma ValidateOne(key: RawKey)
    requires WellFormed(key)
    ensures Validate([key]) == Some([Normal(key)])
  {
    hide WellFormed, Normal;
    assert [key][..|[key]| - 1] == [] && Collect([]) == Some([]);
    assert HashesOf([]) == {} && [] + [Normal(key)] == [Normal(key)];
    assert Accept([], key) == Some([Normal(key)]);
  }

  lemma AliasClaims(db: Db, epoch: Epoch, alias: Hash, kind: Kind, account: Account)
    requires Rooted(db) && Current(db, epoch) && account in db.accounts && alias !in db.keys
    requires db.roots[epoch.root].action != Some(Reroute)
    ensures var after := BindAtEpoch(db, map[alias := kind], account, epoch);
            && after.1 == Ok(true) && after.0.roots == db.roots
            && after.0.keys == ClaimKeys(db.keys, epoch.root, map[alias := kind])
            && after.0.accounts == db.accounts
  {
    hide BindRoutes, ClaimKeys;
  }

  lemma AliasBinds(db: Db, epoch: Epoch, key: RawKey, account: Account)
    requires WellFormed(key)
    ensures Bind(db, [key], account, Some(epoch))
        == BindAtEpoch(db, map[Normal(key).hash := Normal(key).kind], account, epoch)
  {
    ValidateOne(key);
    BindUnfolds(db, [key], account, Some(epoch));
    var k := Normal(key);
    assert KeyTable([k]) == map[k.hash := k.kind] by { assert k in [k]; }
    hide WellFormed, Validate, BindAtEpoch, BindLegacy, Bind, KeyTable, Normal;
  }

  /** Outside a reroute, a bind with a new key makes the tree one key larger and changes nothing in its root. */
  lemma AliasJoins(db: Db, epoch: Epoch, key: RawKey, account: Account)
    requires Inv(db) && Current(db, epoch) && account in db.accounts && WellFormed(key) && Hash(key.hash) !in db.keys
    requires db.roots[epoch.root].action != Some(Reroute)
    ensures var after := Bind(db, [key], account, Some(epoch));
            && after.1 == Ok(true) && after.0.roots == db.roots && after.0.accounts == db.accounts
            && after.0.keys.Keys == db.keys.Keys + {Hash(key.hash)}
            && |TreeTable(after.0, epoch.root)| == |TreeTable(db, epoch.root)| + 1
  {
    AliasBinds(db, epoch, key, account);
    var k := Normal(key);
    AliasClaims(db, epoch, k.hash, k.kind, account);
    assert ClaimKeys(db.keys, epoch.root, map[k.hash := k.kind]).Keys == db.keys.Keys + {k.hash};
    assert k.hash == Hash(key.hash);
    hide *;
    ClaimOneMore(db, Bind(db, [key], account, Some(epoch)).0, epoch.root, k.hash, k.kind);
  }
}
