/**
  The invariant of the routing tables and the order in which they grow.

  Every transaction keeps the invariant, never drops a claimed key, never lowers the
  generation a key sees, never separates two keys of one tree, and never makes a tree
  that a command has claimed look untouched again.
 */
module RouteInvariant {
  import opened Base
  import opened RouteKeys
  import opened Routes

  /** Each root is a key of its own tree, and every key belongs to a tree that exists. */
  ghost predicate Rooted(db: Db) {
    && (forall r | r in db.roots :: r in db.keys && db.keys[r].root == r)
    && (forall k | k in db.keys :: db.keys[k].root in db.roots)
  }

  /** The references the schema enforces. */
  ghost predicate References(db: Db) {
    && (forall k | k in db.affinity :: db.affinity[k].account in db.accounts)
    && (forall r | r in db.roots && db.roots[r].requested.Some? :: db.roots[r].requested.value in db.accounts)
    && (forall r | r in db.roots && db.roots[r].effective.Some? :: db.roots[r].effective.value in db.accounts)
  }

  ghost predicate RowOk(row: Root) {
    && row.generation <= I64_MAX
    && (row.action.None? ==> row == FRESH_ROOT)
    && (row.action == Some(Rebalance) ==> row.requested.None?)
    && (row.status == Some(Pending) ==> row.effective.None?)
  }

  /** A sticky row is never newer than its tree; an unclaimed one has generation 0. */
  ghost predicate Bounded(db: Db)
    requires Rooted(db)
  {
    forall k | k in db.affinity ::
      db.affinity[k].generation <= if k in db.keys then db.roots[db.keys[k].root].generation else 0
  }

  /** The sticky row of `k` agrees with the command that rerouted its tree. */
  ghost predicate Follows(db: Db, k: Hash)
    requires k in db.affinity && k in db.keys && db.keys[k].root in db.roots
  {
    var row := db.roots[db.keys[k].root];
    row.action == Some(Reroute) && row.effective.Some? ==>
      db.affinity[k].account == row.effective.value && db.affinity[k].generation == row.generation
  }

  /** A rerouted tree with an effective account is never split between accounts. */
  ghost predicate Unsplit(db: Db)
    requires Rooted(db)
  {
    forall k | k in db.affinity && k in db.keys :: Follows(db, k)
  }

  ghost predicate Inv(db: Db) {
    && Rooted(db)
    && References(db)
    && (forall r | r in db.roots :: RowOk(db.roots[r]))
    && Bounded(db)
    && Unsplit(db)
  }

  /** The root row a claimed key sees. */
  ghost function Tree(db: Db, k: Hash): Root
    requires Rooted(db) && k in db.keys
  {
    db.roots[db.keys[k].root]
  }

  ghost predicate SameTree(db: Db, a: Hash, b: Hash) {
    a in db.keys && b in db.keys && db.keys[a].root == db.keys[b].root
  }

  ghost predicate Claimed(db: Db, k: Hash)
    requires Rooted(db)
  {
    k in db.keys && Tree(db, k).action.Some?
  }

  /** `after` may follow `before`: no key lost, no generation lowered, no tree split, no claim undone. */
  ghost predicate Grows(before: Db, after: Db)
    requires Rooted(before) && Rooted(after)
  {
    && before.keys.Keys <= after.keys.Keys
    && (forall k | k in before.keys :: Tree(before, k).generation <= Tree(after, k).generation)
    && (forall a, b | SameTree(before, a, b) :: SameTree(after, a, b))
    && (forall k | Claimed(before, k) :: Claimed(after, k))
  }

  lemma GrowsTransitive(a: Db, b: Db, c: Db)
    requires Rooted(a) && Rooted(b) && Rooted(c)
    requires Grows(a, b) && Grows(b, c)
    ensures Grows(a, c)
  {
    forall k | k in a.keys ensures Tree(a, k).generation <= Tree(c, k).generation {
      assert k in b.keys;
    }
  }

  /** The selector and the eligibility test only ever name existing accounts. */
  ghost predicate EnvOk(db: Db, env: Env) {
    && env.eligible <= db.accounts.Keys
    && (env.choice.Some? ==> env.choice.value in env.eligible)
  }

  // ---------------------------------------------------------------- route commands

  /** What a decision means, in terms of the trees the command touches. */
  ghost predicate Decided(db: Db, root: Hash, input: map<Hash, Kind>, target: Option<Account>, env: Env, d: Decision)
  {
    && d.roots == PriorRoots(db.keys, input) + {root}
    && d.keys == MergedKeys(db.keys, d.roots, input)
    && (target.Some? ==> target.value in db.accounts)
    && d.effective == EffectiveAccount(target, env)
    && (d.move ==> d.effective.Some?)
    && d.generation == (if d.move then d.current + 1 else d.current)
    && (forall r | r in d.roots && r in db.roots :: db.roots[r].generation <= d.current)
    && (forall k | k in d.keys && k in db.affinity
        && db.affinity[k].account in db.accounts :: db.affinity[k].generation <= d.current)
    && (d.response.status == Pending <==> d.effective.None?)
  }

  lemma DecideMeaning(db: Db, existed: bool, root: Hash, input: map<Hash, Kind>, target: Option<Account>, env: Env)
    requires Decide(db, existed, root, input, target, env).Ok?
    ensures Decided(db, root, input, target, env, Decide(db, existed, root, input, target, env).value)
  {
    var d := Decide(db, existed, root, input, target, env).value;
    forall r | r in d.roots && r in db.roots ensures db.roots[r].generation <= d.current {
      assert db.roots[r].generation in RootGenerations(db.roots, d.roots);
    }
    forall k | k in d.keys && k in db.affinity && db.affinity[k].account in db.accounts
      ensures db.affinity[k].generation <= d.current
    {
      assert db.affinity[k].generation in RouteGenerations(db.affinity,
          RoutedKeys(db.accounts, db.affinity, d.keys.Keys));
    }
  }

  /** The generations a decision reads are those of existing rows, so they stay in range. */
  lemma DecisionInRange(db: Db, existed: bool, root: Hash, input: map<Hash, Kind>, target: Option<Account>, env: Env)
    requires Inv(db)
    requires Decide(db, existed, root, input, target, env).Ok?
    ensures Decide(db, existed, root, input, target, env).value.generation <= I64_MAX
  {
    var d := Decide(db, existed, root, input, target, env).value;
    if !d.move {
      assert d.current in RootGenerations(db.roots, d.roots) || d.current == 0
             || d.current in RouteGenerations(db.affinity, RoutedKeys(db.accounts, db.affinity, d.keys.Keys));
      if d.current in RootGenerations(db.roots, d.roots) {
        var r :| r in d.roots && r in db.roots && db.roots[r].generation == d.current;
        assert RowOk(db.roots[r]);
      } else if d.current in RouteGenerations(db.affinity, RoutedKeys(db.accounts, db.affinity, d.keys.Keys)) {
        var k :| k in d.keys && k in db.affinity && db.affinity[k].generation == d.current;
        assert k in db.keys ==> RowOk(db.roots[db.keys[k].root]);
      }
    }
  }

  /** A command that does not move finds every key of the tree already routed to its account. */
  lemma SettledRoutes(db: Db, existed: bool, root: Hash, input: map<Hash, Kind>, target: Option<Account>, env: Env,
      k: Hash)
    requires Decide(db, existed, root, input, target, env).Ok?
    requires var d := Decide(db, existed, root, input, target, env).value;
             d.effective.Some? && !d.move && k in d.keys
    ensures var d := Decide(db, existed, root, input, target, env).value;
            k in db.affinity && db.affinity[k] == Route(d.keys[k], d.effective.value, d.generation)
  {
    var d := Decide(db, existed, root, input, target, env).value;
    var changed := ChangedKeys(db.accounts, db.affinity, d.keys, d.effective.value);
    assert changed == {};
    assert k !in changed;
    assert db.affinity[k].generation in RouteGenerations(db.affinity,
        RoutedKeys(db.accounts, db.affinity, d.keys.Keys));
  }

  /** The trees that a command touches are exactly the ones whose keys it claims. */
  lemma TouchedKeys(db: Db, root: Hash, input: map<Hash, Kind>, d: Decision, k: Hash)
    requires d.roots == PriorRoots(db.keys, input) + {root} && d.keys == MergedKeys(db.keys, d.roots, input)
    requires k in db.keys
    ensures k in d.keys <==> db.keys[k].root in d.roots
  {
    if k in input {
      assert db.keys[k].root in PriorRoots(db.keys, input);
    }
  }

  /**
    Merging keeps the forest: the merged trees collapse into one self-rooted tree and every
    other tree is left alone.
   */
  lemma CommitRooted(db: Db, root: Hash, input: map<Hash, Kind>, action: Action, target: Option<Account>, d: Decision)
    requires Rooted(db) && root in input
    requires d.roots == PriorRoots(db.keys, input) + {root} && d.keys == MergedKeys(db.keys, d.roots, input)
    ensures Rooted(Commit(db, root, action, target, d))
  {
    var after := Commit(db, root, action, target, d);
    forall r | r in after.roots ensures r in after.keys && after.keys[r].root == r {
      if r != root {
        TouchedKeys(db, root, input, d, r);
      }
    }
    forall k | k in after.keys ensures after.keys[k].root in after.roots {
      if k in db.keys {
        TouchedKeys(db, root, input, d, k);
      }
    }
  }

  /** The root row a command leaves behind. */
  ghost function CommandRow(action: Action, target: Option<Account>, d: Decision): Root {
    Root(d.generation, Some(action), target, d.effective, Some(d.response.status))
  }

  /** Where a key that was already claimed ends up. */
  lemma CommitKey(db: Db, root: Hash, input: map<Hash, Kind>, action: Action, target: Option<Account>, d: Decision,
      k: Hash)
    requires Rooted(db) && root in input && k in db.keys
    requires d.roots == PriorRoots(db.keys, input) + {root} && d.keys == MergedKeys(db.keys, d.roots, input)
    ensures var after := Commit(db, root, action, target, d);
            && k in after.keys && after.keys[k].root in after.roots
            && (db.keys[k].root in d.roots ==>
                  after.keys[k].root == root && after.roots[root] == CommandRow(action, target, d))
            && (db.keys[k].root !in d.roots ==>
                  after.keys[k] == db.keys[k] && after.roots[db.keys[k].root] == db.roots[db.keys[k].root])
  {
    TouchedKeys(db, root, input, d, k);
  }

  lemma CommitGrows(db: Db, root: Hash, input: map<Hash, Kind>, action: Action, target: Option<Account>, env: Env,
      d: Decision)
    requires Rooted(db) && root in input && Decided(db, root, input, target, env, d)
    ensures Rooted(Commit(db, root, action, target, d))
    ensures Grows(db, Commit(db, root, action, target, d))
  {
    CommitRooted(db, root, input, action, target, d);
    var after := Commit(db, root, action, target, d);
    forall k | k in db.keys
      ensures k in after.keys
      ensures Tree(db, k).generation <= Tree(after, k).generation
      ensures Claimed(db, k) ==> Claimed(after, k)
    {
      CommitKey(db, root, input, action, target, d, k);
    }
    forall a, b | SameTree(db, a, b) ensures SameTree(after, a, b) {
      CommitKey(db, root, input, action, target, d, a);
      CommitKey(db, root, input, action, target, d, b);
    }
  }

  /** All that the proofs about a committed command need to know of its decision. */
  ghost predicate Sound(db: Db, root: Hash, input: map<Hash, Kind>, target: Option<Account>, env: Env, d: Decision) {
    && Decided(db, root, input, target, env, d)
    && d.generation <= I64_MAX
    && (d.effective.Some? && !d.move ==>
          forall k | k in d.keys ::
            k in db.affinity && db.affinity[k] == Route(d.keys[k], d.effective.value, d.generation))
  }

  lemma DecideSound(db: Db, existed: bool, root: Hash, input: map<Hash, Kind>, target: Option<Account>, env: Env)
    requires Inv(db) && Decide(db, existed, root, input, target, env).Ok?
    ensures Sound(db, root, input, target, env, Decide(db, existed, root, input, target, env).value)
  {
    DecideMeaning(db, existed, root, input, target, env);
    DecisionInRange(db, existed, root, input, target, env);
    var d := Decide(db, existed, root, input, target, env).value;
    if d.effective.Some? && !d.move {
      forall k | k in d.keys
        ensures k in db.affinity && db.affinity[k] == Route(d.keys[k], d.effective.value, d.generation)
      {
        SettledRoutes(db, existed, root, input, target, env, k);
      }
    }
  }

  lemma CommitRoute(db: Db, root: Hash, input: map<Hash, Kind>, action: Action,
                    target: Option<Account>, env: Env, d: Decision, k: Hash)
    requires Inv(db) && root in input && EnvOk(db, env)
    requires Sound(db, root, input, target, env, d)
    requires var after := Commit(db, root, action, target, d); Rooted(after) && k in after.affinity
    ensures var after := Commit(db, root, action, target, d);
            && after.affinity[k].account in after.accounts
            && after.affinity[k].generation <= (if k in after.keys then Tree(after, k).generation else 0)
            && (k in after.keys ==> Follows(after, k))
  {
    if k !in d.keys && k in db.keys {
      CommitKey(db, root, input, action, target, d, k);
      TouchedKeys(db, root, input, d, k);
      assert Follows(db, k);
    }
  }

  lemma CommitRows(db: Db, root: Hash, action: Action, target: Option<Account>, d: Decision)
    requires References(db) && (forall r | r in db.roots :: RowOk(db.roots[r]))
    requires RowOk(CommandRow(action, target, d))
    requires target.Some? ==> target.value in db.accounts
    requires d.effective.Some? ==> d.effective.value in db.accounts
    ensures var after := Commit(db, root, action, target, d);
            forall r | r in after.roots ::
              && RowOk(after.roots[r])
              && (after.roots[r].requested.Some? ==> after.roots[r].requested.value in after.accounts)
              && (after.roots[r].effective.Some? ==> after.roots[r].effective.value in after.accounts)
  {
  }

  lemma InvFromParts(db: Db)
    requires Rooted(db)
    requires forall r | r in db.roots ::
               && RowOk(db.roots[r])
               && (db.roots[r].requested.Some? ==> db.roots[r].requested.value in db.accounts)
               && (db.roots[r].effective.Some? ==> db.roots[r].effective.value in db.accounts)
    requires forall k | k in db.affinity ::
               && db.affinity[k].account in db.accounts
               && db.affinity[k].generation <= (if k in db.keys then Tree(db, k).generation else 0)
               && (k in db.keys ==> Follows(db, k))
    ensures Inv(db)
  {
  }

  /** A committed command keeps the invariant. */
  lemma CommitKeepsInv(db: Db, root: Hash, input: map<Hash, Kind>, action: Action,
                       target: Option<Account>, env: Env, d: Decision)
    requires Inv(db) && root in input && EnvOk(db, env)
    requires action == Rebalance <==> target.None?
    requires target.Some? ==> target.value in db.accounts
    requires Sound(db, root, input, target, env, d)
    ensures Inv(Commit(db, root, action, target, d))
  {
    CommitRooted(db, root, input, action, target, d);
    CommitRows(db, root, action, target, d);
    var after := Commit(db, root, action, target, d);
    forall k | k in after.affinity
      ensures && after.affinity[k].account in after.accounts
              && after.affinity[k].generation <= (if k in after.keys then Tree(after, k).generation else 0)
              && (k in after.keys ==> Follows(after, k))
    {
      CommitRoute(db, root, input, action, target, env, d, k);
    }
    InvFromParts(after);
  }

  /** The fresh root row that a real run inserts first does not change what it reads. */
  lemma InsertInvisible(db: Db, existed: bool, root: Hash, input: map<Hash, Kind>, target: Option<Account>, env: Env)
    ensures Read(WithRoot(db, root), existed, root, input, target, env)
            == Read(db, existed, root, input, target, env)
  {
    MaxWithFresh(db, root, PriorRoots(db.keys, input) + {root});
  }

  lemma DecideAfterInsert(db: Db, existed: bool, root: Hash, input: map<Hash, Kind>, target: Option<Account>, env: Env)
    ensures Decide(WithRoot(db, root), existed, root, input, target, env)
        == Decide(db, existed, root, input, target, env)
    ensures Decide(db, existed, root, input, target, env).Ok? ==>
              root in Decide(db, existed, root, input, target, env).value.roots
  {
    InsertInvisible(db, existed, root, input, target, env);
  }

  lemma CommitAfterInsert(db: Db, root: Hash, action: Action, target: Option<Account>, d: Decision)
    requires root in d.roots
    ensures Commit(WithRoot(db, root), root, action, target, d) == Commit(db, root, action, target, d)
  {
    assert WithRoot(db, root).roots - d.roots == db.roots - d.roots;
  }

  lemma MaxWithFresh(db: Db, root: Hash, roots: set<Hash>)
    requires root in roots
    ensures MaxOf(RootGenerations(WithRoot(db, root).roots, roots)) == MaxOf(RootGenerations(db.roots, roots))
  {
    var a, b := RootGenerations(db.roots, roots), RootGenerations(WithRoot(db, root).roots, roots);
    forall g | g in a ensures g in b {
      var r :| r in roots && r in db.roots && db.roots[r].generation == g;
      assert WithRoot(db, root).roots[r].generation == g;
    }
    forall g | g in b ensures g in a || g == 0 {
      var r :| r in roots && r in WithRoot(db, root).roots && WithRoot(db, root).roots[r].generation == g;
    }
    assert b != {} by {
      assert WithRoot(db, root).roots[root].generation in b;
    }
  }

  /** What a real run does, without the row it inserts and then overwrites. */
  lemma ApplyUnfolds(db: Db, request: Request, env: Env)
    requires !request.dryRun
    ensures var checked := Checked(request);
            var root := Hash(request.root);
            checked.Some? ==>
              match Decide(db, root in db.roots, root, checked.value, request.target, env)
              case Err(e) => Apply(db, request, env) == (db, Err(e))
              case Ok(d) =>
                Apply(db, request, env) == (Commit(db, root, request.action, request.target, d), Ok(d.response))
  {
    var checked := Checked(request);
    if checked.Some? {
      var root := Hash(request.root);
      DecideAfterInsert(db, root in db.roots, root, checked.value, request.target, env);
      match Decide(db, root in db.roots, root, checked.value, request.target, env)
      case Err(e) =>
      case Ok(d) =>
        CommitAfterInsert(db, root, request.action, request.target, d);
    }
  }

  /**
    A dry run changes nothing and reports exactly what the real run from the same state
    would report: the same status, accounts, generation and counts, or the same error.
   */
  lemma DryRunForetells(db: Db, request: Request, env: Env)
    ensures Apply(db, request.(dryRun := true), env).0 == db
    ensures Apply(db, request.(dryRun := true), env).1 == Apply(db, request.(dryRun := false), env).1
  {
    var dry, wet := request.(dryRun := true), request.(dryRun := false);
    assert Checked(dry) == Checked(wet);
    if Checked(wet).Some? {
      DecideAfterInsert(db, Hash(request.root) in db.roots, Hash(request.root), Checked(wet).value, request.target,
          env);
    }
  }
}
