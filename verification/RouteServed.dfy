/** A run in which one pass brings a root from behind a hundred others onto the next listing. */
module RouteServed {
  import opened Base
  import opened RouteKeys
  import opened Routes
  import opened RouteInvariant
  import opened RouteBinds
  import opened RouteRuns
  import opened RouteOutcomes
  import opened RoutePending
  import opened RouteOversized
  import opened RouteQueue
  import opened RouteStarved

  // ---------------------------------------------------------------- one tree of one key

  const WAITING: Root := Root(0, Some(Rebalance), None, None, Some(Pending))

  /**
    A rebalance of one key while no account is eligible, for a session with a live connection. The
    first plants a tree; any later one is its retry.
   */
  function OneTree(t: nat, account: Account): Step
    requires t <= LIST_LIMIT
  {
    Command(Request(Fingerprint(First(t)), [SessionKey(First(t))], Rebalance, None, false), Env({}, None, {account}))
  }

  lemma OneTreeChecked(t: nat, account: Account)
    requires t <= LIST_LIMIT
    ensures var step := OneTree(t, account);
            && step.Command? && Checked(step.request) == Some(map[RootOf(t) := SESSION_ID])
            && Hash(step.request.root) == RootOf(t) && step.request.action == Rebalance
            && step.request.target == None && !step.request.dryRun && step.env == Env({}, None, {account})
  {
    var key := SessionKey(First(t));
    FingerprintValid(First(t));
    SessionKeyNormal(First(t));
    ValidateOne(key);
    var k := Normal(key);
    assert KeyTable([k]) == map[k.hash := k.kind] by { assert k in [k]; }
    hide Fingerprint, WellFormed, Normal, Validate, KeyTable, ValidHash;
  }

  /** What the command leaves: its own tree of one key waits, and nothing else is different. */
  ghost predicate OneTreeLeft(before: Db, after: Db, t: nat)
    requires t <= LIST_LIMIT
  {
    && after.accounts == before.accounts && after.affinity == before.affinity
    && after.roots == before.roots[RootOf(t) := WAITING]
    && after.keys == before.keys[RootOf(t) := KeyRow(RootOf(t), SESSION_ID)]
  }

  lemma CommitOneTree(db: Db, t: nat, d: Decision)
    requires t <= LIST_LIMIT && d.roots == {RootOf(t)} && d.effective.None? && d.response.status == Pending
    requires d.generation == 0 && d.keys == map[RootOf(t) := SESSION_ID]
    ensures OneTreeLeft(db, Commit(db, RootOf(t), Rebalance, None, d), t)
  {
    hide RootOf;
    var after := Commit(db, RootOf(t), Rebalance, None, d);
    assert after.keys == db.keys[RootOf(t) := KeyRow(RootOf(t), SESSION_ID)];
    assert after.roots == db.roots[RootOf(t) := WAITING];
  }

  ghost predicate OneTreeDecided(db: Db, t: nat, account: Account)
    requires t <= LIST_LIMIT
  {
    var d := Committed(db, OneTree(t, account));
    && d.Some? && d.value.roots == {RootOf(t)} && d.value.keys == map[RootOf(t) := SESSION_ID]
    && d.value.effective.None? && d.value.response.status == Pending && d.value.generation == 0
  }

  lemma OneTreeStep(db: Db, t: nat, account: Account)
    requires t <= LIST_LIMIT && Inv(db) && OneTreeDecided(db, t, account)
    ensures var step := OneTree(t, account);
            StepOk(db, step) && Restamped(db, step) == {RootOf(t)} && OneTreeLeft(db, Next(db, step), t)
  {
    var step := OneTree(t, account);
    OneTreeChecked(t, account);
    assert StepOk(db, step) && Committed(db, step).Some? && Committed(db, step).value.roots == {RootOf(t)};
    hide Inv, OneTree, RootOf, Committed, Restamped, OneTreeLeft, Next, StepOk, Sound, Commit;
    CommittedStep(db, step);
    CommandStamps(db, step, RootOf(t));
    CommitOneTree(db, t, Committed(db, step).value);
  }

  // ---------------------------------------------------------------- its first command, and its retry

  lemma FirstDecided(db: Db, t: nat, account: Account)
    requires t <= LIST_LIMIT && Inv(db) && RootOf(t) !in db.keys
    ensures OneTreeDecided(db, t, account)
  {
    OneTreeChecked(t, account);
    hide Inv, OneTree, RootOf, Checked, Decide;
    NewKeysDecision(db, RootOf(t), map[RootOf(t) := SESSION_ID], account);
  }

  /** The tree of one key waits. */
  ghost predicate OneTreeWaits(db: Db, t: nat)
    requires t <= LIST_LIMIT
  {
    && RootOf(t) in db.roots && db.roots[RootOf(t)] == WAITING
    && TreeTable(db, RootOf(t)) == map[RootOf(t) := SESSION_ID]
  }

  lemma OneTreeRetries(db: Db, t: nat, account: Account)
    requires t <= LIST_LIMIT && OneTreeWaits(db, t)
    ensures OneTree(t, account).Command? && IsRetry(db, RootOf(t), OneTree(t, account).request)
  {
    SessionKeyNormal(First(t));
    var key := SessionKey(First(t));
    assert NormalSet([key]) == {Normal(key)} by { assert [key][0] == key; }
    var table := map[RootOf(t) := SESSION_ID];
    assert Entries(table) == {RouteKey(RootOf(t), SESSION_ID)} by { assert RootOf(t) in table; }
    hide Fingerprint, WellFormed, Normal, NormalSet, Entries, TreeTable;
  }

  lemma PendingKeepsGeneration(db: Db, step: Step)
    requires Inv(db) && StepOk(db, step) && Committed(db, step).Some? && Committed(db, step).value.effective.None?
    ensures Committed(db, step).value.generation == Committed(db, step).value.current
  {
    hide Inv, Read, Checked;
  }

  lemma RetryDecided(db: Db, t: nat, account: Account)
    requires t <= LIST_LIMIT && Inv(db) && Stored(db) && OneTreeWaits(db, t)
    ensures OneTreeDecided(db, t, account)
  {
    var step := OneTree(t, account);
    var request, env := step.request, step.env;
    OneTreeChecked(t, account);
    OneTreeRetries(db, t, account);
    assert StepOk(db, step) && EnvOk(db, env) && |TreeTable(db, RootOf(t))| == 1;
    assert EffectiveAccount(request.target, env) == None;
    hide Inv, Stored, OneTree, RootOf, Committed, StepOk, IsRetry, TreeTable, EnvOk, EffectiveAccount;
    RetryDecision(db, RootOf(t), request, env);
    assert step == Command(request, env);
    OneTreeGeneration(db, step, RootOf(t));
    PendingKeepsGeneration(db, step);
  }

  // ---------------------------------------------------------------- the run

  const TREES: nat := LIST_LIMIT + 1
  const STEPS: nat := LIST_LIMIT + TREES

  /** Which tree step `i` acts on: each is planted once, then all but the last are retried in turn. */
  function TreeAt(i: nat): (t: nat)
    requires i < STEPS
    ensures t <= LIST_LIMIT
  { if i < TREES then i else i - TREES }

  function PlantedBefore(i: nat): (t: nat)
    ensures t <= TREES
  { if i < TREES then i else TREES }

  /** The last of the steps before `i` that acted on tree `t`. */
  function LastActed(i: nat, t: nat): nat { if t + TREES < i then t + TREES else t }

  function ServingSteps(account: Account): seq<Step> {
    seq(STEPS, i requires 0 <= i < STEPS => OneTree(TreeAt(i), account))
  }

  function FirstRoots(t: nat): set<Hash>
    requires t <= TREES
  { set u: nat | u < t :: RootOf(u) }

  /** Each of these roots waits alone in its tree, and there is nothing else. */
  ghost predicate JustThese(db: Db, roots: set<Hash>) {
    && db.roots.Keys == roots && (forall r | r in db.roots :: db.roots[r] == WAITING)
    && db.keys.Keys == roots && (forall r | r in db.keys :: db.keys[r] == KeyRow(r, SESSION_ID))
  }

  /** The state before step `i`: the trees planted so far, each waiting since it was acted on last. */
  ghost predicate Reached(c: Stamped, i: nat, account: Account) {
    && Inv(c.db) && Stored(c.db) && Keyed(c) && account in c.db.accounts
    && JustThese(c.db, FirstRoots(PlantedBefore(i)))
    && forall u: nat | u < PlantedBefore(i) :: RootOf(u) in c.updated && c.updated[RootOf(u)] == LastActed(i, u)
  }

  lemma RootInFirst(t: nat, u: nat)
    requires t <= TREES && u <= LIST_LIMIT
    ensures RootOf(u) in FirstRoots(t) <==> u < t
  {
    hide RootOf;
    forall v: nat | v < t && v != u ensures RootOf(v) != RootOf(u) {
      RootsDiffer(u, v);
    }
  }

  /** Every tree planted waits, with one key. */
  lemma ReachedWaits(c: Stamped, i: nat, account: Account, u: nat)
    requires Reached(c, i, account) && u < PlantedBefore(i)
    ensures OneTreeWaits(c.db, u) && Pends(c, RootOf(u))
  {
    RootInFirst(PlantedBefore(i), u);
    hide RootOf, Inv, Stored, FirstRoots, PlantedBefore;
  }

  lemma ReachedDecided(c: Stamped, i: nat, account: Account)
    requires i < STEPS && Reached(c, i, account)
    ensures OneTreeDecided(c.db, TreeAt(i), account)
  {
    hide RootOf, Inv, Stored, FirstRoots, OneTreeDecided, OneTreeWaits, Pends;
    if i < TREES {
      RootInFirst(PlantedBefore(i), i);
      FirstDecided(c.db, i, account);
    } else {
      ReachedWaits(c, i, account, TreeAt(i));
      RetryDecided(c.db, TreeAt(i), account);
    }
  }

  lemma FirstRootsNext(i: nat)
    requires i < STEPS
    ensures FirstRoots(PlantedBefore(i + 1)) == FirstRoots(PlantedBefore(i)) + {RootOf(TreeAt(i))}
  {
    hide RootOf;
    if i >= TREES {
      RootInFirst(PlantedBefore(i), TreeAt(i));
    }
  }

  lemma TablesNext(before: Db, after: Db, i: nat, few: set<Hash>, many: set<Hash>)
    requires i < STEPS && OneTreeLeft(before, after, TreeAt(i)) && many == few + {RootOf(TreeAt(i))}
    requires JustThese(before, few)
    ensures JustThese(after, many)
  {
    hide RootOf, TreeAt;
  }

  lemma TickRows(c: Stamped, step: Step, now: int, root: Hash, r: Hash)
    requires Keyed(c) && Restamped(c.db, step) == {root} && r in Next(c.db, step).roots
        && (r == root || r in c.db.roots)
    ensures r in Tick(c, step, now).updated
    ensures Tick(c, step, now).updated[r] == if r == root then now else c.updated[r]
  {
    hide Next, Restamped;
  }

  lemma ActedNext(i: nat, u: nat)
    requires i < STEPS && u < PlantedBefore(i + 1)
    ensures u == TreeAt(i) ==> LastActed(i + 1, u) == i
    ensures u != TreeAt(i) ==> u < PlantedBefore(i) && LastActed(i + 1, u) == LastActed(i, u)
  {}

  lemma StampNext(c: Stamped, i: nat, account: Account, u: nat)
    requires i < STEPS && Reached(c, i, account) && u < PlantedBefore(i + 1) && u <= LIST_LIMIT
    requires Restamped(c.db, OneTree(TreeAt(i), account)) == {RootOf(TreeAt(i))}
    requires OneTreeLeft(c.db, Next(c.db, OneTree(TreeAt(i), account)), TreeAt(i))
    ensures var after := Tick(c, OneTree(TreeAt(i), account), i);
            RootOf(u) in after.updated && after.updated[RootOf(u)] == LastActed(i + 1, u)
  {
    ActedNext(i, u);
    if u != TreeAt(i) {
      RootsDiffer(u, TreeAt(i));
      RootInFirst(PlantedBefore(i), u);
    }
    hide RootOf, OneTree, Next, Restamped, Inv, Stored, FirstRoots, TreeAt, PlantedBefore, LastActed, Tick, First,
        SMALL;
    TickRows(c, OneTree(TreeAt(i), account), i, RootOf(TreeAt(i)), RootOf(u));
  }

  lemma StampsNext(c: Stamped, i: nat, account: Account)
    requires i < STEPS && Reached(c, i, account)
    requires Restamped(c.db, OneTree(TreeAt(i), account)) == {RootOf(TreeAt(i))}
    requires OneTreeLeft(c.db, Next(c.db, OneTree(TreeAt(i), account)), TreeAt(i))
    ensures var after := Tick(c, OneTree(TreeAt(i), account), i);
            forall u: nat | u < PlantedBefore(i + 1) ::
              RootOf(u) in after.updated && after.updated[RootOf(u)] == LastActed(i + 1, u)
  {
    hide RootOf, OneTree, Next, Restamped, Reached, Tick, OneTreeLeft, TreeAt, LastActed, PlantedBefore;
    var after := Tick(c, OneTree(TreeAt(i), account), i);
    forall u: nat | u < PlantedBefore(i + 1)
      ensures RootOf(u) in after.updated && after.updated[RootOf(u)] == LastActed(i + 1, u)
    {
      StampNext(c, i, account, u);
    }
  }

  lemma ReachedParts(c: Stamped, i: nat, account: Account)
    requires Reached(c, i, account)
    ensures Inv(c.db) && Stored(c.db) && Keyed(c) && account in c.db.accounts
    ensures JustThese(c.db, FirstRoots(PlantedBefore(i)))
  {
    hide Inv, Stored, FirstRoots, PlantedBefore, LastActed, RootOf;
  }

  lemma ReachedFromParts(c: Stamped, i: nat, account: Account)
    requires Inv(c.db) && Stored(c.db) && Keyed(c) && account in c.db.accounts
    requires JustThese(c.db, FirstRoots(PlantedBefore(i)))
    requires forall u: nat | u < PlantedBefore(i) ::
               RootOf(u) in c.updated && c.updated[RootOf(u)] == LastActed(i, u)
    ensures Reached(c, i, account)
  {
    hide Inv, Stored, FirstRoots, PlantedBefore, LastActed, RootOf;
  }

  lemma SameAccounts(before: Db, after: Db, t: nat)
    requires t <= LIST_LIMIT && OneTreeLeft(before, after, t)
    ensures after.accounts == before.accounts
  {
    hide RootOf;
  }

  lemma ReachedNext(c: Stamped, i: nat, account: Account)
    requires i < STEPS && Reached(c, i, account)
    ensures StepOk(c.db, OneTree(TreeAt(i), account))
    ensures Reached(Tick(c, OneTree(TreeAt(i), account), i), i + 1, account)
  {
    hide *;
    var step := OneTree(TreeAt(i), account);
    var after := Tick(c, step, i);
    ReachedParts(c, i, account);
    ReachedDecided(c, i, account);
    OneTreeStep(c.db, TreeAt(i), account);
    StepKeepsInv(c.db, step);
    StepKeepsStored(c.db, step);
    TickIs(c, step, i);
    FirstRootsNext(i);
    SameAccounts(c.db, after.db, TreeAt(i));
    TablesNext(c.db, after.db, i, FirstRoots(PlantedBefore(i)), FirstRoots(PlantedBefore(i + 1)));
    StampsNext(c, i, account);
    ReachedFromParts(after, i + 1, account);
  }

  // ---------------------------------------------------------------- there is such a run

  lemma ReachedFirst(db: Db, account: Account)
    requires Initial(db) && account in db.accounts
    ensures Reached(Stamped(db, map[]), 0, account)
  {
    InitialSound(db);
    hide Inv, Stored, RootOf;
    assert FirstRoots(0) == {};
  }

  ghost predicate Serving(cs: seq<Stamped>, steps: seq<Step>, times: seq<int>, account: Account) {
    && |steps| == STEPS && |times| == STEPS && |cs| == STEPS + 1
    && (forall i: nat | i < STEPS :: steps[i] == OneTree(TreeAt(i), account) && times[i] == i)
    && IsTimedRun(cs, steps, times)
    && forall i: nat | i <= STEPS :: Reached(cs[i], i, account)
  }

  lemma ReachedStamps(c: Stamped, i: nat, account: Account)
    requires Reached(c, i, account)
    ensures StampedBy(c, i)
  {
    hide Inv, Stored, RootOf;
    forall r | r in c.updated ensures c.updated[r] <= i {
      assert r in FirstRoots(PlantedBefore(i));
    }
  }

  lemma {:induction false} ReachedAll(c: Stamped, account: Account, i: nat)
    requires Reached(c, 0, account) && i <= STEPS == |ServingSteps(account)|
    requires forall j: nat | j < STEPS :: ServingSteps(account)[j] == OneTree(TreeAt(j), account)
    ensures Reached(Unroll(c, ServingSteps(account), 0, Tick)[i], i, account)
  {
    hide *;
    if i > 0 {
      ReachedAll(c, account, i - 1);
      var before := Unroll(c, ServingSteps(account), 0, Tick)[i - 1];
      UnrollNext(c, ServingSteps(account), 0, Tick, i - 1);
      ReachedNext(before, i - 1, account);
    }
  }

  lemma ServingTick(c: Stamped, account: Account, times: seq<int>, i: nat)
    requires Reached(c, 0, account) && i < STEPS == |ServingSteps(account)| == |times| && times[i] == i
    requires forall j: nat | j < STEPS :: ServingSteps(account)[j] == OneTree(TreeAt(j), account)
    ensures |Unroll(c, ServingSteps(account), 0, Tick)| == STEPS + 1
    ensures TickAt(Unroll(c, ServingSteps(account), 0, Tick), ServingSteps(account), times, i)
  {
    hide *;
    var cs := Unroll(c, ServingSteps(account), 0, Tick);
    ReachedAll(c, account, i);
    ReachedNext(cs[i], i, account);
    ReachedStamps(cs[i], i, account);
    UnrollNext(c, ServingSteps(account), 0, Tick, i);
    TickFromParts(cs, ServingSteps(account), times, i);
  }

  lemma StepsAre(account: Account)
    ensures |ServingSteps(account)| == STEPS
    ensures forall i: nat | i < STEPS :: ServingSteps(account)[i] == OneTree(TreeAt(i), account)
  {
    hide OneTree, TreeAt;
  }

  lemma ServingTimed(cs: seq<Stamped>, times: seq<int>, account: Account)
    requires |cs| == STEPS + 1 && Initial(cs[0].db) && Keyed(cs[0]) && |times| == STEPS == |ServingSteps(account)|
    requires forall i: nat | i < STEPS :: times[i] == i
    requires forall i: nat | i < STEPS :: TickAt(cs, ServingSteps(account), times, i)
    ensures IsTimedRun(cs, ServingSteps(account), times)
  {
    hide Initial, Keyed, TickAt, ServingSteps;
  }

  lemma ServingFromParts(cs: seq<Stamped>, times: seq<int>, account: Account)
    requires |cs| == STEPS + 1 && |times| == STEPS == |ServingSteps(account)|
    requires forall i: nat | i < STEPS :: times[i] == i
    requires forall i: nat | i < STEPS :: ServingSteps(account)[i] == OneTree(TreeAt(i), account)
    requires forall i: nat | i <= STEPS :: Reached(cs[i], i, account)
    requires IsTimedRun(cs, ServingSteps(account), times)
    ensures Serving(cs, ServingSteps(account), times, account)
  {
    hide IsTimedRun, Reached, OneTree, TreeAt, ServingSteps;
  }

  lemma EmptyStamped(db: Db)
    requires Initial(db)
    ensures Keyed(Stamped(db, map[]))
  {}

  /** The run, from any database the migration leaves. */
  lemma ServingRun(db: Db, account: Account) returns (cs: seq<Stamped>, steps: seq<Step>, times: seq<int>)
    requires Initial(db) && account in db.accounts
    ensures Serving(cs, steps, times, account) && cs[0].db == db
  {
    hide *;
    var c := Stamped(db, map[]);
    steps, times := ServingSteps(account), seq(STEPS, i => i);
    cs := Unroll(c, steps, 0, Tick);
    StepsAre(account);
    EmptyStamped(db);
    ReachedFirst(db, account);
    forall i: nat | i <= STEPS ensures Reached(cs[i], i, account) {
      ReachedAll(c, account, i);
    }
    forall i: nat | i < STEPS ensures TickAt(cs, steps, times, i) {
      ServingTick(c, account, times, i);
    }
    ServingTimed(cs, times, account);
    ServingFromParts(cs, times, account);
  }

  // ---------------------------------------------------------------- its two listings

  /** Before the retries the trees wait in the order they were planted; after them the last one comes first. */
  function InPlace(retried: bool, p: nat): (t: nat)
    requires p <= LIST_LIMIT
    ensures t <= LIST_LIMIT
  { if !retried then p else if p == 0 then LIST_LIMIT else p - 1 }

  function PlaceOf(retried: bool, t: nat): (p: nat)
    requires t <= LIST_LIMIT
    ensures p <= LIST_LIMIT && InPlace(retried, p) == t
  { if !retried then t else if t == LIST_LIMIT then 0 else t + 1 }

  function ListAfter(retried: bool): seq<Hash> {
    seq(LIST_LIMIT, p requires 0 <= p < LIST_LIMIT => RootOf(InPlace(retried, p)))
  }

  function StateOf(retried: bool): (i: nat)
    ensures TREES <= i <= STEPS
  { if retried then STEPS else TREES }

  lemma PlacesInOrder(c: Stamped, retried: bool, account: Account, p: nat, q: nat)
    requires Reached(c, StateOf(retried), account) && p < q <= LIST_LIMIT
    ensures Pends(c, RootOf(InPlace(retried, p))) && Pends(c, RootOf(InPlace(retried, q)))
    ensures RootOf(InPlace(retried, p)) != RootOf(InPlace(retried, q))
    ensures Earlier(c, RootOf(InPlace(retried, p)), RootOf(InPlace(retried, q)))
  {
    var t, u := InPlace(retried, p), InPlace(retried, q);
    assert LastActed(StateOf(retried), t) < LastActed(StateOf(retried), u);
    RootsDiffer(t, u);
    ReachedWaits(c, StateOf(retried), account, t);
    ReachedWaits(c, StateOf(retried), account, u);
    hide RootOf, Inv, Stored, FirstRoots, InPlace, LastActed, JustThese, Pends, OneTreeWaits;
  }

  lemma PendingTree(c: Stamped, i: nat, account: Account, r: Hash) returns (t: nat)
    requires Reached(c, i, account) && Pends(c, r)
    ensures t <= LIST_LIMIT && RootOf(t) == r
  {
    assert r in FirstRoots(PlantedBefore(i));
    hide RootOf, Inv, Stored;
    t :| t < PlantedBefore(i) && r == RootOf(t);
  }

  lemma ListRows(retried: bool)
    ensures |ListAfter(retried)| == LIST_LIMIT
    ensures forall p: nat | p < LIST_LIMIT :: ListAfter(retried)[p] == RootOf(InPlace(retried, p))
  {
    hide RootOf, InPlace;
  }

  /** A list of pending roots in order that all but one pending root is on, the last. */
  lemma ListingFromParts(c: Stamped, rows: seq<Hash>, last: Hash)
    requires |rows| == LIST_LIMIT && forall p: nat | p < LIST_LIMIT :: Pends(c, rows[p]) && Earlier(c, rows[p], last)
    requires forall p: nat, q: nat | p < q < LIST_LIMIT :: rows[p] != rows[q] && Earlier(c, rows[p], rows[q])
    requires forall r | Pends(c, r) && r !in rows :: r == last
    ensures IsListing(c, rows)
  {
    hide Pends, Earlier;
  }

  lemma ListedTree(retried: bool, t: nat)
    requires t <= LIST_LIMIT
    ensures RootOf(t) in ListAfter(retried) || t == InPlace(retried, LIST_LIMIT)
  {
    hide RootOf, InPlace, ListAfter;
    ListRows(retried);
    var p := PlaceOf(retried, t);
    assert p < LIST_LIMIT ==> ListAfter(retried)[p] == RootOf(t);
  }

  lemma OnlyLastLeft(c: Stamped, retried: bool, account: Account, r: Hash)
    requires Reached(c, StateOf(retried), account) && Pends(c, r) && r !in ListAfter(retried)
    ensures r == RootOf(InPlace(retried, LIST_LIMIT))
  {
    hide RootOf, InPlace, StateOf, Reached, ListAfter, Pends;
    var t := PendingTree(c, StateOf(retried), account, r);
    ListedTree(retried, t);
  }

  lemma ListingOf(c: Stamped, retried: bool, account: Account)
    requires Reached(c, StateOf(retried), account)
    ensures IsListing(c, ListAfter(retried))
  {
    var rows := ListAfter(retried);
    hide *;
    ListRows(retried);
    forall p: nat, q: nat | p < q < LIST_LIMIT
      ensures rows[p] != rows[q] && Earlier(c, rows[p], rows[q])
    {
      PlacesInOrder(c, retried, account, p, q);
    }
    forall p: nat | p < LIST_LIMIT
      ensures Pends(c, rows[p]) && Earlier(c, rows[p], RootOf(InPlace(retried, LIST_LIMIT)))
    {
      PlacesInOrder(c, retried, account, p, LIST_LIMIT);
    }
    forall r | Pends(c, r) && r !in rows ensures r == RootOf(InPlace(retried, LIST_LIMIT)) {
      OnlyLastLeft(c, retried, account, r);
    }
    ListingFromParts(c, rows, RootOf(InPlace(retried, LIST_LIMIT)));
  }

  // ---------------------------------------------------------------- the pass

  lemma ServingParts(cs: seq<Stamped>, steps: seq<Step>, times: seq<int>, account: Account, i: nat)
    requires Serving(cs, steps, times, account) && i <= STEPS
    ensures |steps| == STEPS && |times| == STEPS && |cs| == STEPS + 1 && IsTimedRun(cs, steps, times)
    ensures Reached(cs[i], i, account)
    ensures i < STEPS ==> steps[i] == OneTree(TreeAt(i), account) && times[i] == i
  {
    hide Reached, OneTree, TreeAt, IsTimedRun;
  }

  lemma RetryOfTree(c: Stamped, i: nat, account: Account, t: nat)
    requires TREES <= i < STEPS && Reached(c, i, account) && t == TreeAt(i) && t < LIST_LIMIT && t < PlantedBefore(i)
    ensures OneTree(t, account).Command? && IsRetry(c.db, RootOf(t), OneTree(t, account).request)
    ensures RootOf(LIST_LIMIT) !in Restamped(c.db, OneTree(t, account))
  {
    assert t <= LIST_LIMIT && t != LIST_LIMIT;
    hide *;
    ReachedParts(c, i, account);
    ReachedWaits(c, i, account, t);
    OneTreeRetries(c.db, t, account);
    ReachedDecided(c, i, account);
    OneTreeStep(c.db, t, account);
    RootsDiffer(t, LIST_LIMIT);
  }

  /** Every tree is retried in the pass but the last, whose row stays as it was. */
  lemma PassStep(cs: seq<Stamped>, steps: seq<Step>, times: seq<int>, account: Account, i: nat)
    requires Serving(cs, steps, times, account) && TREES <= i < STEPS
    ensures |cs| == |steps| + 1 == STEPS + 1 && RetriedAt(cs, steps, TREES, i, RootOf(i - TREES))
    ensures SMALL !in Restamped(cs[i].db, steps[i])
  {
    ServingParts(cs, steps, times, account, i);
    hide RootOf, OneTree, Reached, Restamped, Serving, IsRetry, IsTimedRun;
    RetryOfTree(cs[i], i, account, i - TREES);
    OneTreeTarget(i - TREES, account);
  }

  lemma OneTreeTarget(t: nat, account: Account)
    requires t <= LIST_LIMIT
    ensures OneTree(t, account).Command? && OneTree(t, account).request.target == None
  {
    hide Fingerprint, SessionKey, First;
  }

  lemma SmallWaits(cs: seq<Stamped>, steps: seq<Step>, times: seq<int>, account: Account, i: nat)
    requires Serving(cs, steps, times, account) && TREES <= i <= STEPS
    ensures |cs| == STEPS + 1 && Pends(cs[i], SMALL) && SMALL in cs[i].db.roots
    ensures SMALL in cs[i].updated && cs[i].updated[SMALL] == LIST_LIMIT
  {
    ServingParts(cs, steps, times, account, i);
    ReachedWaits(cs[i], i, account, LIST_LIMIT);
    hide RootOf, Serving, Inv, Stored, IsTimedRun, JustThese, FirstRoots;
  }

  /** No tree here is without hope. */
  lemma NoneHopeless(c: Stamped, i: nat, account: Account, r: Hash)
    requires Reached(c, i, account) && r in c.db.roots
    ensures !Hopeless(c, r)
  {
    hide *;
    var t := ReachedRoot(c, i, account, r);
    PlantedLimit(i);
    ReachedWaits(c, i, account, t);
    WaitsHopeful(c, t);
  }

  lemma PlantedLimit(i: nat)
    ensures PlantedBefore(i) <= LIST_LIMIT + 1
  {}

  lemma ReachedRoot(c: Stamped, i: nat, account: Account, r: Hash) returns (t: nat)
    requires Reached(c, i, account) && r in c.db.roots
    ensures t <= LIST_LIMIT && t < PlantedBefore(i) && r == RootOf(t)
  {
    assert r in FirstRoots(PlantedBefore(i));
    hide Inv, Stored, RootOf, Reached;
    t :| t < PlantedBefore(i) && r == RootOf(t);
  }

  lemma WaitsHopeful(c: Stamped, t: nat)
    requires t <= LIST_LIMIT && OneTreeWaits(c.db, t)
    ensures !Hopeless(c, RootOf(t))
  {
    hide RootOf, TreeTable;
    assert |TreeTable(c.db, RootOf(t))| == 1;
  }

  lemma PassFromParts(cs: seq<Stamped>, steps: seq<Step>, i: nat, n: nat, rows: seq<Hash>)
    requires i <= n <= |steps| < |cs| && n == i + |rows| && IsListing(cs[i], rows)
    requires forall p: nat | p < |rows| :: RetriedAt(cs, steps, i, i + p, rows[p])
    ensures PassAt(cs, steps, i, n, rows)
  {
    hide IsListing, RetriedAt, Pends;
    forall y | y in rows ensures exists m | i <= m < n :: RetriedAt(cs, steps, i, m, y) {
      var p: nat :| p < |rows| && rows[p] == y;
      assert RetriedAt(cs, steps, i, i + p, rows[p]);
    }
  }

  lemma StateAfter()
    ensures StateOf(false) == TREES && StateOf(true) == STEPS == TREES + LIST_LIMIT
    ensures forall p: nat | p < LIST_LIMIT :: InPlace(false, p) == p
  {}

  lemma ServingPass(cs: seq<Stamped>, steps: seq<Step>, times: seq<int>, account: Account)
    requires Serving(cs, steps, times, account)
    ensures |cs| == |steps| + 1 == STEPS + 1 && IsListing(cs[STEPS], ListAfter(true))
    ensures TREES <= STEPS && PassAt(cs, steps, TREES, STEPS, ListAfter(false))
  {
    hide *;
    StateAfter();
    ServingParts(cs, steps, times, account, TREES);
    ServingParts(cs, steps, times, account, STEPS);
    ListingOf(cs[TREES], false, account);
    ListingOf(cs[STEPS], true, account);
    ListRows(false);
    var rows := ListAfter(false);
    forall p: nat | p < |rows| ensures RetriedAt(cs, steps, TREES, TREES + p, rows[p]) {
      PassStep(cs, steps, times, account, TREES + p);
    }
    PassFromParts(cs, steps, TREES, STEPS, rows);
  }

  lemma QuietFromParts(cs: seq<Stamped>, steps: seq<Step>, times: seq<int>, i: nat, n: nat, x: Hash)
    requires i <= n == |times| == |steps| < |cs|
    requires forall m: nat | i <= m <= n :: Pends(cs[m], x) && x in cs[m].db.roots
    requires forall m: nat | i <= m < n :: x !in Restamped(cs[m].db, steps[m])
    requires x in cs[i].updated && forall m: nat | i <= m < n :: cs[i].updated[x] < times[m]
    ensures WaitsQuietly(cs, steps, times, i, n, x)
  {
    hide Pends, Restamped;
  }

  lemma AfterSmall(i: nat)
    ensures i >= TREES ==> LIST_LIMIT < i
    ensures TREES <= STEPS
  {}

  lemma ServingQuiet(cs: seq<Stamped>, steps: seq<Step>, times: seq<int>, account: Account)
    requires Serving(cs, steps, times, account)
    ensures |cs| == |steps| + 1 == STEPS + 1 && TREES <= STEPS && WaitsQuietly(cs, steps, times, TREES, STEPS, SMALL)
  {
    hide *;
    AfterSmall(TREES);
    ServingParts(cs, steps, times, account, TREES);
    forall m: nat | TREES <= m < STEPS
      ensures SMALL !in Restamped(cs[m].db, steps[m]) && LIST_LIMIT < times[m]
    {
      AfterSmall(m);
      ServingParts(cs, steps, times, account, m);
      PassStep(cs, steps, times, account, m);
    }
    forall m: nat | TREES <= m <= STEPS
      ensures Pends(cs[m], SMALL) && SMALL in cs[m].db.roots
      ensures SMALL in cs[m].updated && cs[m].updated[SMALL] == LIST_LIMIT
    {
      SmallWaits(cs, steps, times, account, m);
    }
    QuietFromParts(cs, steps, times, TREES, STEPS, SMALL);
  }

  lemma AheadOfSmall(c: Stamped, account: Account)
    requires Reached(c, TREES, account)
    ensures Ahead(c, SMALL) == StuckRoots(LIST_LIMIT)
  {
    forall r | r in Ahead(c, SMALL) ensures r in StuckRoots(LIST_LIMIT) {
      var t := PendingTree(c, TREES, account, r);
    }
    forall r | r in StuckRoots(LIST_LIMIT) ensures r in Ahead(c, SMALL) {
      var t: nat :| t < LIST_LIMIT && RootOf(t) == r;
      PlacesInOrder(c, false, account, t, LIST_LIMIT);
    }
  }

  lemma HopeOfAll(cs: seq<Stamped>, steps: seq<Step>, times: seq<int>, account: Account, i: nat, rows: seq<Hash>)
    requires Serving(cs, steps, times, account) && i <= STEPS < |cs|
    ensures HopelessAhead(cs[i], rows, SMALL) == {} && (SMALL in cs[i].db.roots ==> !Hopeless(cs[i], SMALL))
  {
    ServingParts(cs, steps, times, account, i);
    hide RootOf, Reached, Serving, Hopeless, IsTimedRun, Ahead;
    forall r | r in cs[i].db.roots ensures !Hopeless(cs[i], r) {
      NoneHopeless(cs[i], i, account, r);
    }
    forall r | r in Ahead(cs[i], SMALL) ensures r in cs[i].db.roots {
      AheadPends(cs[i], SMALL, r);
    }
  }

  lemma OnePass(cs: seq<Stamped>, steps: seq<Step>, times: seq<int>, i: nat, n: nat, first: seq<Hash>,
                rows: seq<Hash>, x: Hash)
    requires IsTimedRun(cs, steps, times) && i <= n < |cs| == |steps| + 1 && PassAt(cs, steps, i, n, first)
    requires IsListing(cs[n], rows) && WaitsQuietly(cs, steps, times, i, n, x)
    requires HopelessAhead(cs[n], first, x) == {}
    ensures WaitsForPasses(cs, steps, times, [i, n], [first], rows, x) && SomeHope(cs, [i, n], [first], x)
  {
    hide IsTimedRun, PassAt, IsListing, WaitsQuietly, HopelessAhead;
  }

  lemma NoHopelessAhead(c: Stamped, i: nat, account: Account, y: Hash)
    requires Reached(c, i, account) && y in Ahead(c, SMALL)
    ensures !Hopeless(c, y) && !Oversized(c, y)
  {
    AheadPends(c, SMALL, y);
    NoneHopeless(c, i, account, y);
    hide Reached, Oversized, Ahead;
  }

  lemma NothingStuck(cs: seq<Stamped>, steps: seq<Step>, i: nat, n: nat, x: Hash)
    requires i <= n <= |steps| < |cs|
    requires forall m, y | i <= m <= n && y in Ahead(cs[m], x) :: !Hopeless(cs[m], y) && !Oversized(cs[m], y)
    ensures NoneOutgrows(cs, i, n, x) && StuckSpared(cs, steps, i, n, x)
  {
    hide Ahead, Hopeless, Oversized, LeavesAlone;
    assert StuckAhead(cs[i], x) == {};
  }

  lemma StuckFree(cs: seq<Stamped>, steps: seq<Step>, times: seq<int>, account: Account)
    requires Serving(cs, steps, times, account)
    ensures TREES <= STEPS == |steps| < |cs|
    ensures NoneOutgrows(cs, TREES, STEPS, SMALL) && StuckSpared(cs, steps, TREES, STEPS, SMALL)
  {
    hide *;
    AfterSmall(TREES);
    ServingParts(cs, steps, times, account, STEPS);
    forall m: nat, y | TREES <= m <= STEPS && y in Ahead(cs[m], SMALL)
      ensures !Hopeless(cs[m], y) && !Oversized(cs[m], y)
    {
      ServingParts(cs, steps, times, account, m);
      NoHopelessAhead(cs[m], m, account, y);
    }
    NothingStuck(cs, steps, TREES, STEPS, SMALL);
  }

  /**
    From any database the migration leaves there is a run in which a hundred pending trees are in front
    of a tree whose retry would be accepted, and one pass of retries puts that tree on the next listing.
   */
  lemma ServingRunExists(db: Db, account: Account)
    returns (cs: seq<Stamped>, steps: seq<Step>, times: seq<int>, at: seq<nat>, listings: seq<seq<Hash>>,
             rows: seq<Hash>)
    requires Initial(db) && account in db.accounts
    ensures |at| == |listings| + 1 == 2 && at[0] <= at[1] < |cs| && cs[0].db == db
    ensures WaitsForPasses(cs, steps, times, at, listings, rows, SMALL) && SomeHope(cs, at, listings, SMALL)
    ensures |Ahead(cs[at[0]], SMALL)| == LIST_LIMIT && !Hopeless(cs[at[1]], SMALL)
    ensures NoneOutgrows(cs, at[0], at[1], SMALL) && StuckSpared(cs, steps, at[0], at[1], SMALL)
    ensures SMALL !in listings[0] && SMALL in rows
  {
    hide *;
    cs, steps, times := ServingRun(db, account);
    AfterSmall(TREES);
    at, listings, rows := [TREES, STEPS], [ListAfter(false)], ListAfter(true);
    ServingParts(cs, steps, times, account, TREES);
    ServingPass(cs, steps, times, account);
    ServingQuiet(cs, steps, times, account);
    AheadOfSmall(cs[TREES], account);
    StuckCount(LIST_LIMIT);
    HopeOfAll(cs, steps, times, account, STEPS, listings[0]);
    SmallWaits(cs, steps, times, account, STEPS);
    OnePass(cs, steps, times, TREES, STEPS, listings[0], rows, SMALL);
    StuckFree(cs, steps, times, account);
    HopefulListedInTime(cs, steps, times, at, listings, rows, SMALL);
  }
}
