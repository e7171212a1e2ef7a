/** What a route command answers, and everything it leaves behind, in terms of the request as it arrives. */
module RouteCommandEffects {
  import opened Base
  import opened RouteKeys
  import opened Routes
  import opened RouteInvariant
  import opened RouteBinds
  import opened RouteOutcomes
  import opened RoutePending
  import opened RouteBindEffects

  // ---------------------------------------------------------------- the tree a command acts on

  ghost predicate CommandAcceptable(request: Request) {
    && Acceptable(request.keys) && ValidHash(request.root) && Names(request.keys, Hash(request.root))
    && (request.action == Rebalance <==> request.target.None?)
  }

  /** The tree of `r` holds a key of the list. */
  ghost predicate Merges(db: Db, raw: seq<RawKey>, r: Hash) {
    exists x | x in NormalSet(raw) :: x.hash in db.keys && db.keys[x.hash].root == r
  }

  /** The key is on the list, or in one tree with a key that is. */
  ghost predicate InTree(db: Db, raw: seq<RawKey>, h: Hash) {
    Names(raw, h) || (h in db.keys && Merges(db, raw, db.keys[h].root))
  }

  /** A key on the list takes the kind it has there; any other keeps its own. */
  ghost predicate KindAfter(db: Db, raw: seq<RawKey>, h: Hash, kind: Kind) {
    RouteKey(h, kind) in NormalSet(raw) || (!Names(raw, h) && h in db.keys && db.keys[h].kind == kind)
  }

  ghost predicate Highest(db: Db, raw: seq<RawKey>, generation: nat)
    requires Rooted(db)
  {
    && (forall r | r in db.roots && Merges(db, raw, r) :: db.roots[r].generation <= generation)
    && (generation == 0 || exists r | r in db.roots && Merges(db, raw, r) :: db.roots[r].generation == generation)
  }

  /** The account that serves: the requested one when it is eligible, and otherwise the selector's choice. */
  ghost predicate Serves(target: Option<Account>, env: Env, effective: Option<Account>) {
    effective == if exists a | a in env.eligible :: target == Some(a) then target else env.choice
  }

  /**
    Nothing needs to move: the list adds nothing to the tree of `root`, all of the tree is routed to the
    account at the tree's generation, and no live connection uses another account.
   */
  ghost predicate Settled(db: Db, root: Hash, raw: seq<RawKey>, account: Account, live: set<Account>) {
    && root in db.roots
    && (forall x | x in NormalSet(raw) :: x.hash in db.keys && db.keys[x.hash] == KeyRow(root, x.kind))
    && (forall h | h in db.keys && db.keys[h].root == root ::
          h in db.affinity && db.affinity[h] == Route(db.keys[h].kind, account, db.roots[root].generation))
    && live <= {account}
  }

  lemma MergesExactly(db: Db, raw: seq<RawKey>, input: map<Hash, Kind>, r: Hash)
    requires Tabled(raw, input)
    ensures r in PriorRoots(db.keys, input) <==> Merges(db, raw, r)
  {
    hide NormalSet;
    if r in PriorRoots(db.keys, input) {
      var h :| h in input && h in db.keys && db.keys[h].root == r;
      assert RouteKey(h, input[h]) in NormalSet(raw);
    }
  }

  lemma OwnTreeMerges(db: Db, raw: seq<RawKey>, root: Hash)
    requires Rooted(db) && Names(raw, root) && root in db.roots
    ensures Merges(db, raw, root)
  {
    hide NormalSet;
  }

  /** The keys a command claims, with their kinds. */
  lemma MergedExactly(db: Db, raw: seq<RawKey>, input: map<Hash, Kind>, root: Hash, h: Hash)
    requires Inv(db) && Tabled(raw, input) && root in input
    ensures var all := MergedKeys(db.keys, PriorRoots(db.keys, input) + {root}, input);
            (h in all <==> InTree(db, raw, h)) && (h in all ==> KindAfter(db, raw, h, all[h]))
  {
    TabledNames(raw, input, h);
    TabledNames(raw, input, root);
    if h in db.keys {
      MergesExactly(db, raw, input, db.keys[h].root);
      if db.keys[h].root == root {
        OwnTreeMerges(db, raw, root);
      }
    }
    hide NormalSet, Names, Merges, Bounded, Unsplit, References, PriorRoots;
  }

  lemma HighestFromBounds(db: Db, raw: seq<RawKey>, root: Hash, prior: set<Hash>, g: nat)
    requires Rooted(db) && (forall r :: r in prior <==> Merges(db, raw, r))
    requires root in db.roots ==> Merges(db, raw, root)
    requires forall r | r in prior + {root} && r in db.roots :: db.roots[r].generation <= g
    requires g > 0 ==> !(forall r | r in prior + {root} && r in db.roots :: db.roots[r].generation <= g - 1)
    ensures Highest(db, raw, g)
  {
    hide Merges, Rooted;
    if g > 0 {
      var r :| r in prior + {root} && r in db.roots && db.roots[r].generation > g - 1;
      assert Merges(db, raw, r) && db.roots[r].generation == g;
    }
  }

  lemma HighestExactly(db: Db, existed: bool, raw: seq<RawKey>, input: map<Hash, Kind>, root: Hash,
                       target: Option<Account>, env: Env)
    requires Inv(db) && Tabled(raw, input) && root in input
    ensures Highest(db, raw, Newest(Read(db, existed, root, input, target, env)))
  {
    var g := Newest(Read(db, existed, root, input, target, env));
    assert Rooted(db);
    hide *;
    TabledNames(raw, input, root);
    HighestRead(db, existed, root, input, target, env, g);
    if g > 0 {
      HighestRead(db, existed, root, input, target, env, g - 1);
    }
    if root in db.roots { OwnTreeMerges(db, raw, root); }
    forall r ensures r in PriorRoots(db.keys, input) <==> Merges(db, raw, r) {
      MergesExactly(db, raw, input, r);
    }
    HighestFromBounds(db, raw, root, PriorRoots(db.keys, input), g);
  }

  // ---------------------------------------------------------------- when it moves

  /** `Settled` in terms of the validated table. */
  ghost predicate TableSettled(db: Db, root: Hash, input: map<Hash, Kind>, account: Account, live: set<Account>) {
    && root in db.roots
    && (forall h | h in input :: h in db.keys && db.keys[h] == KeyRow(root, input[h]))
    && (forall h | h in db.keys && db.keys[h].root == root ::
          h in db.affinity && db.affinity[h] == Route(db.keys[h].kind, account, db.roots[root].generation))
    && live <= {account}
  }

  lemma SettledTabled(db: Db, root: Hash, raw: seq<RawKey>, input: map<Hash, Kind>, account: Account,
      live: set<Account>)
    requires Tabled(raw, input)
    ensures TableSettled(db, root, input, account, live) <==> Settled(db, root, raw, account, live)
  {
    hide NormalSet;
    if Settled(db, root, raw, account, live) {
      forall h | h in input ensures h in db.keys && db.keys[h] == KeyRow(root, input[h]) {
        assert RouteKey(h, input[h]) in NormalSet(raw);
      }
    }
  }

  lemma SettledTree(db: Db, root: Hash, input: map<Hash, Kind>, account: Account, live: set<Account>)
    requires Inv(db) && root in input && account in db.accounts && TableSettled(db, root, input, account, live)
    ensures root in db.roots && live <= {account}
    ensures TreeIs(db, root, TreeTable(db, root)) && Within(input, TreeTable(db, root))
  {
    hide Bounded, Unsplit, References, RowOk;
  }

  lemma SettledTreeRoutes(db: Db, root: Hash, input: map<Hash, Kind>, account: Account, live: set<Account>)
    requires account in db.accounts && TableSettled(db, root, input, account, live)
    ensures ChangedKeys(db.accounts, db.affinity, TreeTable(db, root), account) == {}
    ensures var routed := RoutedKeys(db.accounts, db.affinity, TreeTable(db, root).Keys);
            forall g | g in RouteGenerations(db.affinity, routed) :: g == db.roots[root].generation
  {}

  lemma NoMove(s: Snapshot, account: Account, env: Env)
    requires s.changed == 0 && !s.remapped && env.live <= {account} && forall g | g in s.generations :: g == Newest(s)
    ensures !RequiresMove(s, Some(account), env)
  {
    hide Newest;
  }

  lemma NothingChanged(db: Db, keys: map<Hash, Kind>, target: Option<Account>, env: Env, account: Account)
    requires EffectiveAccount(target, env) == Some(account)
    requires ChangedKeys(db.accounts, db.affinity, keys, account) == {}
    ensures (match EffectiveAccount(target, env)
             case Some(a) => |ChangedKeys(db.accounts, db.affinity, keys, a)|
             case None => 0) == 0
  {}

  lemma SettledStays(db: Db, root: Hash, input: map<Hash, Kind>, target: Option<Account>, env: Env, account: Account)
    requires Inv(db) && root in input && EffectiveAccount(target, env) == Some(account) && account in db.accounts
    requires TableSettled(db, root, input, account, env.live)
    ensures !RequiresMove(Read(db, true, root, input, target, env), Some(account), env)
  {
    hide *;
    SettledTree(db, root, input, account, env.live);
    SettledTreeRoutes(db, root, input, account, env.live);
    NothingChanged(db, TreeTable(db, root), target, env, account);
    SettledRead(db, root, input, TreeTable(db, root), target, env);
    NoMove(Read(db, true, root, input, target, env), account, env);
  }

  /** All that is read when nothing needs to move. */
  lemma QuietReads(db: Db, existed: bool, root: Hash, input: map<Hash, Kind>, target: Option<Account>, env: Env,
                   account: Account)
    requires EffectiveAccount(target, env) == Some(account)
    requires !RequiresMove(Read(db, existed, root, input, target, env), Some(account), env)
    ensures var s := Read(db, existed, root, input, target, env);
            && existed && env.live <= {account}
            && s.keys == MergedKeys(db.keys, PriorRoots(db.keys, input) + {root}, input)
            && (forall h | h in s.keys ::
                  && h in db.keys && db.keys[h] == KeyRow(root, s.keys[h])
                  && h in db.affinity && db.affinity[h] == Route(s.keys[h], account, Newest(s)))
  {
    var s := Read(db, existed, root, input, target, env);
    assert !MappingChanged(db.keys, existed, root, PriorRoots(db.keys, input) + {root}, s.keys);
    assert ChangedKeys(db.accounts, db.affinity, s.keys, account) == {};
    hide MergedKeys, PriorRoots, LabelOf, PreviousLabels, RootGenerations, Newest, EffectiveAccount;
    forall h | h in s.keys
      ensures h in db.affinity && db.affinity[h] == Route(s.keys[h], account, Newest(s))
      ensures h in db.keys && db.keys[h] == KeyRow(root, s.keys[h])
    {
      assert h !in ChangedKeys(db.accounts, db.affinity, s.keys, account);
      assert h in s.routed && db.affinity[h].generation in s.generations;
    }
  }

  lemma OwnGeneration(db: Db, root: Hash, input: map<Hash, Kind>, target: Option<Account>, env: Env)
    requires Inv(db) && root in db.roots && root in input
    requires forall h | h in input :: h in db.keys && db.keys[h].root == root
    ensures Newest(Read(db, true, root, input, target, env)) == db.roots[root].generation
    ensures PriorRoots(db.keys, input) + {root} == {root}
  {
    assert PriorRoots(db.keys, input) + {root} == {root};
    hide Inv, Newest, Read, PriorRoots;
    var g := Newest(Read(db, true, root, input, target, env));
    HighestRead(db, true, root, input, target, env, g);
    HighestRead(db, true, root, input, target, env, db.roots[root].generation);
  }

  lemma MergedCovers(db: Db, root: Hash, input: map<Hash, Kind>)
    ensures var all := MergedKeys(db.keys, PriorRoots(db.keys, input) + {root}, input);
            && (forall h | h in input :: h in all && all[h] == input[h])
            && (forall h | h in db.keys && db.keys[h].root == root :: h in all)
  {
    hide PriorRoots;
  }

  lemma SettledFromReads(db: Db, root: Hash, input: map<Hash, Kind>, account: Account, live: set<Account>,
                         all: map<Hash, Kind>, generation: nat)
    requires root in db.roots && live <= {account} && db.roots[root].generation == generation
    requires forall h | h in input :: h in all && all[h] == input[h]
    requires forall h | h in db.keys && db.keys[h].root == root :: h in all
    requires forall h | h in all ::
               && h in db.keys && db.keys[h] == KeyRow(root, all[h])
               && h in db.affinity && db.affinity[h] == Route(all[h], account, generation)
    ensures TableSettled(db, root, input, account, live)
  {}

  /** All of the merged tree is routed to the account, and nothing is remapped: that is the tree of `root`. */
  lemma StaysSettled(db: Db, root: Hash, input: map<Hash, Kind>, target: Option<Account>, env: Env, account: Account)
    requires Inv(db) && root in input && EffectiveAccount(target, env) == Some(account)
    requires !RequiresMove(Read(db, root in db.roots, root, input, target, env), Some(account), env)
    ensures TableSettled(db, root, input, account, env.live)
  {
    hide *;
    QuietReads(db, root in db.roots, root, input, target, env, account);
    var s := Read(db, true, root, input, target, env);
    MergedCovers(db, root, input);
    OwnGeneration(db, root, input, target, env);
    SettledFromReads(db, root, input, account, env.live, s.keys, Newest(s));
  }

  /** A command with an account for the tree moves it unless the tree is settled on that account. */
  lemma MovesExactly(db: Db, root: Hash, raw: seq<RawKey>, input: map<Hash, Kind>, target: Option<Account>, env: Env,
                     account: Account)
    requires Inv(db) && Tabled(raw, input) && root in input && account in db.accounts
    requires EffectiveAccount(target, env) == Some(account)
    ensures RequiresMove(Read(db, root in db.roots, root, input, target, env), Some(account), env)
            <==> !Settled(db, root, raw, account, env.live)
  {
    hide *;
    SettledTabled(db, root, raw, input, account, env.live);
    if !RequiresMove(Read(db, root in db.roots, root, input, target, env), Some(account), env) {
      StaysSettled(db, root, input, target, env, account);
    } else if TableSettled(db, root, input, account, env.live) {
      SettledRoot(db, root, input, account, env.live);
      SettledStays(db, root, input, target, env, account);
    }
  }

  lemma SettledRoot(db: Db, root: Hash, input: map<Hash, Kind>, account: Account, live: set<Account>)
    requires TableSettled(db, root, input, account, live)
    ensures root in db.roots
  {}

  // ---------------------------------------------------------------- the answer

  /** The command names a session that nobody has heard of. */
  ghost predicate UnknownSession(db: Db, request: Request, env: Env) {
    && Hash(request.root) !in db.roots && env.live == {}
    && forall x | x in NormalSet(request.keys) :: x.hash !in db.keys && x.hash !in db.affinity
  }

  ghost predicate NotFoundFor(db: Db, request: Request, env: Env) {
    (request.target.Some? && request.target.value !in db.accounts) || UnknownSession(db, request, env)
  }

  ghost predicate MovesFor(db: Db, request: Request, env: Env) {
    exists a :: Serves(request.target, env, Some(a)) && !Settled(db, Hash(request.root), request.keys, a, env.live)
  }

  lemma ValidExactly(raw: seq<RawKey>)
    ensures Validate(raw).Some? <==> Acceptable(raw)
    ensures Validate(raw).Some? ==> Distinct(Validate(raw).value)
  {
    ValidationExact(raw);
  }

  lemma AcceptableExactly(request: Request)
    ensures Checked(request).Some? <==> CommandAcceptable(request)
    ensures Checked(request).Some? ==>
              Tabled(request.keys, Checked(request).value) && Hash(request.root) in Checked(request).value
  {
    ValidExactly(request.keys);
    hide NormalSet, Validate, Names, Tabled, ValidHash, Acceptable, KeyTable;
    if Validate(request.keys).Some? {
      TableOf(request.keys);
      TabledNames(request.keys, KeyTable(Validate(request.keys).value), Hash(request.root));
    }
  }

  lemma ServesExactly(target: Option<Account>, env: Env, effective: Option<Account>)
    ensures Serves(target, env, effective) <==> effective == EffectiveAccount(target, env)
  {}

  lemma MovesForExactly(db: Db, request: Request, env: Env, input: map<Hash, Kind>)
    requires Inv(db) && EnvOk(db, env) && Tabled(request.keys, input) && Hash(request.root) in input
    ensures var root, e := Hash(request.root), EffectiveAccount(request.target, env);
            RequiresMove(Read(db, root in db.roots, root, input, request.target, env), e, env)
            <==> MovesFor(db, request, env)
  {
    var root, e := Hash(request.root), EffectiveAccount(request.target, env);
    assert e.Some? ==> e.value in db.accounts;
    assert e.None? ==> !RequiresMove(Read(db, root in db.roots, root, input, request.target, env), e, env);
    hide *;
    forall a ensures Serves(request.target, env, a) <==> a == e {
      ServesExactly(request.target, env, a);
    }
    if e.Some? {
      MovesExactly(db, root, request.keys, input, request.target, env, e.value);
    }
    MovesForOnly(db, request, env, e);
  }

  lemma MovesForOnly(db: Db, request: Request, env: Env, e: Option<Account>)
    requires forall a :: Serves(request.target, env, a) <==> a == e
    ensures MovesFor(db, request, env) <==>
              e.Some? && !Settled(db, Hash(request.root), request.keys, e.value, env.live)
  {
    hide Settled, Serves;
  }

  lemma ReadKeys(db: Db, existed: bool, root: Hash, input: map<Hash, Kind>, target: Option<Account>, env: Env)
    ensures var s := Read(db, existed, root, input, target, env);
            && s.prior == PriorRoots(db.keys, input)
            && s.keys == MergedKeys(db.keys, s.prior + {root}, input)
            && s.routed == RoutedKeys(db.accounts, db.affinity, s.keys.Keys)
  {
    hide MergedKeys, PriorRoots, RoutedKeys, MappingChanged, ChangedKeys, PreviousLabels, LabelOf, RootGenerations,
         RouteGenerations, EffectiveAccount;
  }

  ghost predicate RoutesKnown(db: Db) { forall h | h in db.affinity :: db.affinity[h].account in db.accounts }

  lemma UnknownFromParts(db: Db, request: Request, env: Env, prior: set<Hash>, keys: map<Hash, Kind>)
    requires RoutesKnown(db) && (forall r :: r in prior <==> Merges(db, request.keys, r))
    requires forall h :: h in keys <==> InTree(db, request.keys, h)
    ensures UnknownSession(db, request, env)
            <==> Hash(request.root) !in db.roots && env.live == {} && prior == {}
                 && RoutedKeys(db.accounts, db.affinity, keys.Keys) == {}
  {
    hide NormalSet;
    var raw := request.keys;
    forall x | x in NormalSet(raw) && x.hash in db.keys ensures db.keys[x.hash].root in prior {
      assert Merges(db, raw, db.keys[x.hash].root);
    }
    var routed := RoutedKeys(db.accounts, db.affinity, keys.Keys);
    forall x | x in NormalSet(raw) ensures x.hash in keys && (x.hash in db.affinity ==> x.hash in routed) {
      assert Names(raw, x.hash);
    }
    forall h | h in routed ensures Names(raw, h) || (h in db.keys && db.keys[h].root in prior) {
      assert InTree(db, raw, h);
    }
    assert UnknownSession(db, request, env) ==> prior == {} && routed == {};
  }

  lemma AllRoutesKnown(db: Db)
    requires Inv(db)
    ensures RoutesKnown(db) && Rooted(db)
  {}

  lemma UnknownExactly(db: Db, request: Request, env: Env, input: map<Hash, Kind>)
    requires Inv(db) && Tabled(request.keys, input) && Hash(request.root) in input
    ensures var root := Hash(request.root);
            var s := Read(db, root in db.roots, root, input, request.target, env);
            UnknownSession(db, request, env)
            <==> root !in db.roots && s.prior == {} && s.routed == {} && env.live == {}
  {
    hide *;
    var root, raw := Hash(request.root), request.keys;
    var s := Read(db, root in db.roots, root, input, request.target, env);
    AllRoutesKnown(db);
    ReadKeys(db, root in db.roots, root, input, request.target, env);
    forall r ensures r in s.prior <==> Merges(db, raw, r) {
      MergesExactly(db, raw, input, r);
    }
    forall h ensures h in s.keys <==> InTree(db, raw, h) {
      MergedExactly(db, raw, input, root, h);
    }
    UnknownFromParts(db, request, env, s.prior, s.keys);
  }

  lemma HighestUnique(db: Db, raw: seq<RawKey>, a: nat, b: nat)
    requires Inv(db) && Highest(db, raw, a) && Highest(db, raw, b)
    ensures a == b && a <= I64_MAX
  {
    hide Merges, Bounded, Unsplit, References;
    if a > 0 {
      var r :| r in db.roots && Merges(db, raw, r) && db.roots[r].generation == a;
      assert RowOk(db.roots[r]);
    }
  }

  /** What a command decides, in terms of the request. */
  ghost predicate DecidesSo(db: Db, request: Request, env: Env, result: Result<Decision, Error>)
    requires Rooted(db)
  {
    var moves := MovesFor(db, request, env);
    if NotFoundFor(db, request, env) then result == Err(NotFound)
    else if moves && Highest(db, request.keys, I64_MAX) then result == Err(Overflow)
    else
      && result.Ok?
      && Serves(request.target, env, result.value.effective) && result.value.move == moves
      && Highest(db, request.keys, result.value.current)
      && result.value.generation == result.value.current + if moves then 1 else 0
  }

  lemma JudgedBy(s: Snapshot, existed: bool, root: Hash, target: Option<Account>, env: Env)
    ensures var (e, d) := (EffectiveAccount(target, env), Judge(s, existed, root, target, env));
            var moves := RequiresMove(s, e, env);
            if !s.targetKnown || (!existed && s.prior == {} && s.routed == {} && env.live == {}) then d == Err(NotFound)
            else if moves && Newest(s) >= I64_MAX then d == Err(Overflow)
            else
              && d.Ok? && d.value.effective == e && d.value.move == moves && d.value.current == Newest(s)
              && d.value.generation == Newest(s) + if moves then 1 else 0
  {
    hide RequiresMove, EffectiveAccount, Newest, StatusOf;
  }

  lemma FullExactly(db: Db, raw: seq<RawKey>, current: nat)
    requires Inv(db) && Highest(db, raw, current)
    ensures current >= I64_MAX <==> Highest(db, raw, I64_MAX)
  {
    assert Rooted(db);
    hide Highest, Inv, Rooted;
    HighestUnique(db, raw, current, current);
    if Highest(db, raw, I64_MAX) {
      HighestUnique(db, raw, current, I64_MAX);
    }
  }

  lemma JudgedSo(db: Db, request: Request, env: Env, input: map<Hash, Kind>)
    requires Inv(db) && EnvOk(db, env) && Tabled(request.keys, input) && Hash(request.root) in input
    ensures var root := Hash(request.root);
            DecidesSo(db, request, env, Decide(db, root in db.roots, root, input, request.target, env))
  {
    var root, e := Hash(request.root), EffectiveAccount(request.target, env);
    var s := Read(db, root in db.roots, root, input, request.target, env);
    assert s.targetKnown <==> (request.target.Some? ==> request.target.value in db.accounts);
    hide Inv, Read, RequiresMove, EffectiveAccount, Newest, Highest, MovesFor, UnknownSession, Serves, Tabled, EnvOk,
         StatusOf, Judge;
    MovesForExactly(db, request, env, input);
    UnknownExactly(db, request, env, input);
    HighestExactly(db, root in db.roots, request.keys, input, root, request.target, env);
    ServesExactly(request.target, env, e);
    FullExactly(db, request.keys, Newest(s));
    JudgedBy(s, root in db.roots, root, request.target, env);
  }

  /** Every answer a command can give, each exactly when it is given. */
  lemma CommandAnswersExactly(db: Db, request: Request, env: Env)
    requires Inv(db) && EnvOk(db, env)
    ensures var answer := Apply(db, request, env).1;
            var acceptable := CommandAcceptable(request);
            var found := acceptable && !NotFoundFor(db, request, env);
            var full := MovesFor(db, request, env) && Highest(db, request.keys, I64_MAX);
            && (answer == Err(BadRequest) <==> !acceptable)
            && (answer == Err(NotFound) <==> acceptable && !found)
            && (answer == Err(Overflow) <==> found && full)
            && (answer.Ok? <==> found && !full)
  {
    AcceptableExactly(request);
    DryRunForetells(db, request, env);
    var wet := request.(dryRun := false);
    assert request == wet || request == request.(dryRun := true);
    ApplyUnfolds(db, wet, env);
    assert Checked(wet) == Checked(request);
    hide Inv, Apply, Checked, Decide, NotFoundFor, MovesFor, Highest, CommandAcceptable, EnvOk;
    if CommandAcceptable(request) {
      JudgedSo(db, request, env, Checked(request).value);
    }
  }

  // ---------------------------------------------------------------- the effect

  /** The status says whether an account serves the tree, whether it is the one asked for, and whether it is news. */
  ghost predicate StatusSays(target: Option<Account>, effective: Option<Account>, moves: bool, status: Status) {
    var asked := target.None? || target == effective;
    && (status == Pending <==> effective.None?)
    && (status == Fallback <==> effective.Some? && !asked)
    && (status == Applied <==> effective.Some? && asked && moves)
    && (status == NoOp <==> effective.Some? && asked && !moves)
  }

  /** The tables after a committed command. */
  ghost predicate TablesLeft(db: Db, after: Db, request: Request, effective: Option<Account>, moves: bool, row: Root) {
    var root, raw := Hash(request.root), request.keys;
    && after.accounts == db.accounts
    && (forall r :: r in after.roots <==> r == root || (r in db.roots && !Merges(db, raw, r)))
    && (forall r | r in after.roots :: after.roots[r] == if r == root then row else db.roots[r])
    && (forall h | InTree(db, raw, h) ::
          h in after.keys && after.keys[h].root == root && KindAfter(db, raw, h, after.keys[h].kind))
    && (forall h | !InTree(db, raw, h) ::
          (h in after.keys <==> h in db.keys) && (h in db.keys ==> after.keys[h] == db.keys[h]))
    && (forall h | moves && InTree(db, raw, h) ::
          h in after.affinity && h in after.keys && effective.Some?
          && after.affinity[h] == Route(after.keys[h].kind, effective.value, row.generation))
    && (forall h | !(moves && InTree(db, raw, h)) ::
          (h in after.affinity <==> h in db.affinity) && (h in db.affinity ==> after.affinity[h] == db.affinity[h]))
  }

  ghost function Shown(accounts: map<Account, string>, account: Account): string
    requires account in accounts
  { if accounts[account] == "" then "unlabeled" else accounts[account] }

  /** Its tree afterwards. */
  ghost function TreeOf(after: Db, root: Hash): set<Hash> { set h | h in after.keys && after.keys[h].root == root }

  /** The numbers and labels a response reports, by what changed in the tables. */
  ghost predicate Reports(db: Db, after: Db, root: Hash, live: set<Account>, response: Response)
    requires root in after.roots && forall h | h in db.affinity :: db.affinity[h].account in db.accounts
    requires forall a | after.roots[root].requested == Some(a) || after.roots[root].effective == Some(a) ::
               a in db.accounts
  {
    var row, tree := after.roots[root], TreeOf(after, root);
    && Some(response.status) == row.status && response.generation == row.generation
    && response.requested
       == (match row.requested case None => None case Some(a) => Some(Shown(db.accounts, a)))
    && response.effective
       == (match row.effective case None => None case Some(a) => Some(Shown(db.accounts, a)))
    && response.linked == |tree|
    && response.merged == |set r | r in db.roots && r !in after.roots|
    && response.changed
       == (match row.effective
           case None => 0
           case Some(a) =>
             |set h | h in tree && !(h in db.affinity && db.affinity[h].account == a
                                     && db.affinity[h].kind == after.keys[h].kind)|)
    && response.previous
       == (set h | h in tree && h in db.affinity :: Shown(db.accounts, db.affinity[h].account))
          + (set a | a in live && a in db.accounts :: Shown(db.accounts, a))
  }

  lemma JudgedStatus(s: Snapshot, existed: bool, root: Hash, target: Option<Account>, env: Env)
    requires Judge(s, existed, root, target, env).Ok? && (env.choice.Some? ==> env.choice.value in env.eligible)
    ensures var d := Judge(s, existed, root, target, env).value;
            && StatusSays(target, d.effective, d.move, d.response.status)
            && d.roots == s.prior + {root} && d.keys == s.keys
            && d.response == Response(d.response.status, s.requested, s.effective, s.previous, d.generation, |s.keys|,
                                      s.changed, |s.prior - {root}|)
  {
    hide RequiresMove, Newest;
  }

  lemma CommitTables(db: Db, request: Request, d: Decision)
    requires forall h :: h in d.keys <==> InTree(db, request.keys, h)
    requires forall h | h in d.keys :: KindAfter(db, request.keys, h, d.keys[h])
    requires forall r :: r in d.roots <==> r == Hash(request.root) || Merges(db, request.keys, r)
    requires d.move ==> d.effective.Some?
    ensures TablesLeft(db, Commit(db, Hash(request.root), request.action, request.target, d), request, d.effective,
        d.move,
        CommandRow(request.action, request.target, d))
  {
    hide InTree, KindAfter, Merges;
  }

  /** A decision's writes are those the request asks for. */
  lemma CommitLeaves(db: Db, request: Request, input: map<Hash, Kind>, d: Decision)
    requires Inv(db) && Tabled(request.keys, input) && Hash(request.root) in input
    requires d.roots == PriorRoots(db.keys, input) + {Hash(request.root)}
    requires d.keys == MergedKeys(db.keys, d.roots, input) && (d.move ==> d.effective.Some?)
    ensures TablesLeft(db, Commit(db, Hash(request.root), request.action, request.target, d), request, d.effective,
        d.move,
        CommandRow(request.action, request.target, d))
  {
    var root, raw := Hash(request.root), request.keys;
    hide *;
    forall h ensures (h in d.keys <==> InTree(db, raw, h)) && (h in d.keys ==> KindAfter(db, raw, h, d.keys[h])) {
      MergedExactly(db, raw, input, root, h);
    }
    forall r ensures r in PriorRoots(db.keys, input) <==> Merges(db, raw, r) {
      MergesExactly(db, raw, input, r);
    }
    CommitTables(db, request, d);
  }

  lemma TreeIsMerged(db: Db, after: Db, request: Request, effective: Option<Account>, moves: bool, row: Root, h: Hash)
    requires Inv(db) && CommandAcceptable(request) && TablesLeft(db, after, request, effective, moves, row)
    ensures h in TreeOf(after, Hash(request.root)) <==> InTree(db, request.keys, h)
  {
    var root := Hash(request.root);
    if h in db.keys && db.keys[h].root == root {
      OwnTreeMerges(db, request.keys, root);
    }
    hide Names, KindAfter, Merges, Acceptable, NormalSet, Bounded, Unsplit, References, RowOk;
  }

  lemma LabelShown(accounts: map<Account, string>, account: Option<Account>)
    requires account.Some? ==> account.value in accounts
    ensures LabelOf(accounts, account)
         == match account case None => None case Some(a) => Some(Shown(accounts, a))
  {}

  /** The counts of a response, as sizes of what changed. */
  lemma CountsReported(db: Db, after: Db, root: Hash, s: Snapshot, effective: Option<Account>)
    requires Rooted(db) && root in after.roots && TreeOf(after, root) == s.keys.Keys
    requires forall h | h in s.keys :: after.keys[h].kind == s.keys[h]
    requires forall h | h in db.affinity :: db.affinity[h].account in db.accounts
    requires forall r :: r in after.roots <==> r == root || (r in db.roots && r !in s.prior)
    requires s.prior <= db.roots.Keys
    requires s.changed == if effective.Some? then |ChangedKeys(db.accounts, db.affinity, s.keys, effective.value)|
        else 0
    ensures |s.keys| == |TreeOf(after, root)|
    ensures |s.prior - {root}| == |set r | r in db.roots && r !in after.roots|
    ensures s.changed
         == match effective
            case None => 0
            case Some(a) =>
              |set h | h in TreeOf(after, root) && !(h in db.affinity && db.affinity[h].account == a
                                                     && db.affinity[h].kind == after.keys[h].kind)|
  {
    assert |s.keys| == |s.keys.Keys|;
    assert s.prior - {root} == set r | r in db.roots && r !in after.roots;
    if effective.Some? {
      var a := effective.value;
      var tree := TreeOf(after, root);
      hide TreeOf;
      assert ChangedKeys(db.accounts, db.affinity, s.keys, a)
          == set h | h in tree && !(h in db.affinity && db.affinity[h].account == a
                                    && db.affinity[h].kind == after.keys[h].kind);
    }
  }

  lemma LabelsReported(db: Db, tree: set<Hash>, live: set<Account>)
    requires forall h | h in db.affinity :: db.affinity[h].account in db.accounts
    ensures PreviousLabels(db.accounts, db.affinity, RoutedKeys(db.accounts, db.affinity, tree), live)
         == (set h | h in tree && h in db.affinity :: Shown(db.accounts, db.affinity[h].account))
            + (set a | a in live && a in db.accounts :: Shown(db.accounts, a))
  {
    forall a | a in db.accounts ensures DisplayLabel(db.accounts[a]) == Shown(db.accounts, a) {}
    hide DisplayLabel, Shown;
  }

  lemma ClaimedKinds(db: Db, root: Hash, action: Action, target: Option<Account>, d: Decision)
    ensures var after := Commit(db, root, action, target, d);
            forall h | h in d.keys :: h in after.keys && after.keys[h].kind == d.keys[h]
  {
    hide WriteRoutes;
  }

  lemma TreeKinds(db: Db, after: Db, request: Request, input: map<Hash, Kind>, d: Decision)
    requires Inv(db) && CommandAcceptable(request) && Tabled(request.keys, input) && Hash(request.root) in input
    requires d.roots == PriorRoots(db.keys, input) + {Hash(request.root)}
    requires d.keys == MergedKeys(db.keys, d.roots, input)
    requires after == Commit(db, Hash(request.root), request.action, request.target, d)
    requires TablesLeft(db, after, request, d.effective, d.move, CommandRow(request.action, request.target, d))
    ensures TreeOf(after, Hash(request.root)) == d.keys.Keys
    ensures forall h | h in d.keys :: h in after.keys && after.keys[h].kind == d.keys[h]
  {
    var root, row := Hash(request.root), CommandRow(request.action, request.target, d);
    hide *;
    ClaimedKinds(db, root, request.action, request.target, d);
    forall h ensures h in TreeOf(after, root) <==> h in d.keys {
      MergedExactly(db, request.keys, input, root, h);
      TreeIsMerged(db, after, request, d.effective, d.move, row, h);
    }
  }

  lemma ReadParts(db: Db, existed: bool, root: Hash, input: map<Hash, Kind>, target: Option<Account>, env: Env)
    requires Rooted(db)
    ensures var s := Read(db, existed, root, input, target, env);
            && s.prior == PriorRoots(db.keys, input) && s.prior <= db.roots.Keys
            && s.keys == MergedKeys(db.keys, s.prior + {root}, input)
            && s.requested == LabelOf(db.accounts, target)
            && s.effective == LabelOf(db.accounts, EffectiveAccount(target, env))
            && s.previous
               == PreviousLabels(db.accounts, db.affinity, RoutedKeys(db.accounts, db.affinity, s.keys.Keys), env.live)
            && s.changed == (if EffectiveAccount(target, env).Some?
                             then |ChangedKeys(db.accounts, db.affinity, s.keys, EffectiveAccount(target, env).value)|
                             else 0)
  {
    hide MergedKeys, LabelOf, PreviousLabels, RoutedKeys, ChangedKeys, EffectiveAccount, MappingChanged;
  }

  lemma EffectivePart(s: Snapshot, existed: bool, root: Hash, target: Option<Account>, env: Env)
    requires Judge(s, existed, root, target, env).Ok?
    ensures Judge(s, existed, root, target, env).value.effective == EffectiveAccount(target, env)
    ensures s.targetKnown
  {
    hide RequiresMove, EffectiveAccount, Newest, StatusOf;
  }

  lemma CommandPremises(db: Db, request: Request, env: Env, input: map<Hash, Kind>, d: Decision)
    requires Inv(db) && EnvOk(db, env)
    requires var root := Hash(request.root); Decide(db, root in db.roots, root, input, request.target, env) == Ok(d)
    ensures var root := Hash(request.root);
            var s := Read(db, root in db.roots, root, input, request.target, env);
            var after := Commit(db, root, request.action, request.target, d);
            && Rooted(db) && RoutesKnown(db) && (env.choice.Some? ==> env.choice.value in env.eligible)
            && (forall h | h in db.affinity :: db.affinity[h].account in db.accounts)
            && (forall a | request.target == Some(a) && s.targetKnown :: a in db.accounts)
            && (forall a | EffectiveAccount(request.target, env) == Some(a) :: a in db.accounts)
            && Judge(s, root in db.roots, root, request.target, env) == Ok(d)
            && root in after.roots && after.roots[root] == CommandRow(request.action, request.target, d)
  {
    hide Judge, Bounded, Unsplit, RowOk, MergedKeys, PriorRoots, RoutedKeys, MappingChanged, ChangedKeys,
        PreviousLabels,
         LabelOf, RootGenerations, RouteGenerations, ClaimKeys, WriteRoutes;
  }

  /** The part of the effect that is about the response. */
  lemma CommitReports(db: Db, request: Request, env: Env, input: map<Hash, Kind>, d: Decision)
    requires Inv(db) && EnvOk(db, env) && CommandAcceptable(request) && Tabled(request.keys, input)
    requires Hash(request.root) in input
    requires var root := Hash(request.root); Decide(db, root in db.roots, root, input, request.target, env) == Ok(d)
    ensures var after := Commit(db, Hash(request.root), request.action, request.target, d);
            && Hash(request.root) in after.roots && RoutesKnown(db)
            && (forall a | request.target == Some(a) || d.effective == Some(a) :: a in db.accounts)
            && after.roots[Hash(request.root)] == CommandRow(request.action, request.target, d)
            && TablesLeft(db, after, request, d.effective, d.move, CommandRow(request.action, request.target, d))
            && Reports(db, after, Hash(request.root), env.live, d.response)
            && StatusSays(request.target, d.effective, d.move, d.response.status)
  {
    var root := Hash(request.root);
    var existed := root in db.roots;
    var s := Read(db, existed, root, input, request.target, env);
    var after := Commit(db, root, request.action, request.target, d);
    CommandPremises(db, request, env, input, d);
    hide *;
    JudgedStatus(s, existed, root, request.target, env);
    EffectivePart(s, existed, root, request.target, env);
    ReadParts(db, existed, root, input, request.target, env);
    MoveNeedsAccount(s, existed, root, request.target, env);
    CommitLeaves(db, request, input, d);
    TreeKinds(db, after, request, input, d);
    RootsLeftBy(db, after, request, input, d);
    CountsReported(db, after, root, s, d.effective);
    LabelsReported(db, TreeOf(after, root), env.live);
    LabelShown(db.accounts, request.target);
    LabelShown(db.accounts, d.effective);
    RowParts(request, d);
    ReportsFromParts(db, after, root, env.live, d.response);
  }

  lemma RowParts(request: Request, d: Decision)
    ensures CommandRow(request.action, request.target, d)
         == Root(d.generation, Some(request.action), request.target, d.effective, Some(d.response.status))
  {}

  lemma MoveNeedsAccount(s: Snapshot, existed: bool, root: Hash, target: Option<Account>, env: Env)
    requires Judge(s, existed, root, target, env).Ok?
    ensures Judge(s, existed, root, target, env).value.move
        ==> Judge(s, existed, root, target, env).value.effective.Some?
  {
    hide EffectiveAccount, Newest, StatusOf;
  }

  lemma RootsLeftBy(db: Db, after: Db, request: Request, input: map<Hash, Kind>, d: Decision)
    requires Tabled(request.keys, input)
    requires TablesLeft(db, after, request, d.effective, d.move, CommandRow(request.action, request.target, d))
    ensures forall r :: r in after.roots <==>
              r == Hash(request.root) || (r in db.roots && r !in PriorRoots(db.keys, input))
  {
    forall r ensures r in PriorRoots(db.keys, input) <==> Merges(db, request.keys, r) {
      MergesExactly(db, request.keys, input, r);
    }
    hide Merges, PriorRoots, Tabled, InTree, KindAfter;
  }

  lemma ReportsFromParts(db: Db, after: Db, root: Hash, live: set<Account>, response: Response)
    requires root in after.roots && forall h | h in db.affinity :: db.affinity[h].account in db.accounts
    requires forall a | after.roots[root].requested == Some(a) || after.roots[root].effective == Some(a) ::
               a in db.accounts
    requires after.roots[root].status == Some(response.status) && response.generation == after.roots[root].generation
    requires response.requested
          == (match after.roots[root].requested case None => None case Some(a) => Some(Shown(db.accounts, a)))
    requires response.effective
          == (match after.roots[root].effective case None => None case Some(a) => Some(Shown(db.accounts, a)))
    requires response.linked == |TreeOf(after, root)|
    requires response.merged == |set r | r in db.roots && r !in after.roots|
    requires response.changed
          == (match after.roots[root].effective
              case None => 0
              case Some(a) =>
                |set h | h in TreeOf(after, root) && !(h in db.affinity && db.affinity[h].account == a
                                                       && db.affinity[h].kind == after.keys[h].kind)|)
    requires response.previous
          == (set h | h in TreeOf(after, root) && h in db.affinity :: Shown(db.accounts, db.affinity[h].account))
             + (set a | a in live && a in db.accounts :: Shown(db.accounts, a))
    ensures Reports(db, after, root, live, response)
  {
    hide TreeOf, Shown;
  }

  /** Everything a committed command leaves behind, and everything it reports. */
  ghost predicate CommandLeaves(db: Db, after: Db, request: Request, env: Env, response: Response)
    requires Inv(db)
  {
    var root, moves := Hash(request.root), MovesFor(db, request, env);
    && root in after.roots && Serves(request.target, env, after.roots[root].effective)
    && StatusSays(request.target, after.roots[root].effective, moves, response.status)
    && after.roots[root].action == Some(request.action) && after.roots[root].requested == request.target
    && (if moves then after.roots[root].generation > 0 && Highest(db, request.keys, after.roots[root].generation - 1)
        else Highest(db, request.keys, after.roots[root].generation))
    && TablesLeft(db, after, request, after.roots[root].effective, moves, after.roots[root])
    && (forall a | after.roots[root].requested == Some(a) || after.roots[root].effective == Some(a) :: a in db.accounts)
    && Reports(db, after, root, env.live, response)
  }

  lemma LeavesFromParts(db: Db, after: Db, request: Request, env: Env, d: Decision)
    requires Inv(db) && Hash(request.root) in after.roots && RoutesKnown(db)
    requires forall a | request.target == Some(a) || d.effective == Some(a) :: a in db.accounts
    requires after.roots[Hash(request.root)] == CommandRow(request.action, request.target, d)
    requires TablesLeft(db, after, request, d.effective, d.move, CommandRow(request.action, request.target, d))
    requires Reports(db, after, Hash(request.root), env.live, d.response)
    requires StatusSays(request.target, d.effective, d.move, d.response.status)
    requires DecidesSo(db, request, env, Ok(d))
    ensures CommandLeaves(db, after, request, env, d.response)
  {
    hide Inv, TablesLeft, Reports, StatusSays, MovesFor, Highest, Serves;
  }

  /**
    A command that is not refused routes the merged tree as asked: it leaves these tables and reports
    exactly what it changed, and its status says Fallback if and only if another account serves the tree
    than the one asked for, Applied if and only if the one asked for does and something moved, and NoOp if
    and only if it does already.
   */
  lemma CommandLeavesExactly(db: Db, request: Request, env: Env)
    requires Inv(db) && EnvOk(db, env) && !request.dryRun && Apply(db, request, env).1.Ok?
    ensures CommandLeaves(db, Apply(db, request, env).0, request, env, Apply(db, request, env).1.value)
  {
    AcceptableExactly(request);
    ApplyUnfolds(db, request, env);
    var root := Hash(request.root);
    assert Checked(request).Some?;
    hide *;
    var input := Checked(request).value;
    JudgedSo(db, request, env, input);
    var d := Decide(db, root in db.roots, root, input, request.target, env).value;
    CommitReports(db, request, env, input, d);
    LeavesFromParts(db, Commit(db, root, request.action, request.target, d), request, env, d);
  }
}
