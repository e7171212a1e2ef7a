/**
  The routing tables as the server updates them: statement by statement, inside
  transactions.  Each method is proved to produce exactly the state and the result of the
  corresponding function in `Routes`.
 */
module RouteStore {
  import opened Base
  import opened RouteKeys
  import opened Routes
  import opened RouteInvariant
  import opened RouteBinds

  lemma TableSnoc(keys: seq<RouteKey>, key: RouteKey)
    requires Distinct(keys) && Distinct(keys + [key])
    ensures key.hash !in KeyTable(keys)
    ensures KeyTable(keys + [key]) == KeyTable(keys)[key.hash := key.kind]
  {
    var all, before, after := keys + [key], KeyTable(keys), KeyTable(keys + [key]);
    assert all[|keys|] == key;
    forall k | k in all ensures k in keys || k == key {}
    forall k | k in keys ensures k in all && k.hash != key.hash {
      var i :| 0 <= i < |keys| && keys[i] == k;
      assert all[i] == k;
    }
    assert HashesOf(all) == HashesOf(keys) + {key.hash} by {
      assert key in all;
    }
    hide Distinct, HashesOf;
  }

  lemma TablePrefix(keys: seq<RouteKey>, n: nat)
    requires Distinct(keys) && n < |keys|
    ensures Distinct(keys[..n]) && Distinct(keys[..n + 1])
    ensures keys[n].hash !in KeyTable(keys[..n])
    ensures KeyTable(keys[..n + 1]) == KeyTable(keys[..n])[keys[n].hash := keys[n].kind]
  {
    assert keys[..n + 1] == keys[..n] + [keys[n]];
    assert Distinct(keys[..n]) && Distinct(keys[..n + 1]);
    hide Distinct, KeyTable;
    TableSnoc(keys[..n], keys[n]);
  }

  /** Claiming one more key is one upsert, whether or not the key was already in the tree. */
  lemma ClaimStep(table: map<Hash, KeyRow>, root: Hash, claimed: map<Hash, Kind>, h: Hash, kind: Kind)
    requires h !in claimed && (h in table ==> table[h].root == root)
    ensures ClaimKeys(table, root, claimed[h := kind]) == ClaimKeys(table, root, claimed)[h := KeyRow(root, kind)]
    ensures h in ClaimKeys(table, root, claimed) ==> ClaimKeys(table, root, claimed)[h].root == root
  {
  }

  lemma BindRouteStep(affinity: map<Hash, Route>, bound: map<Hash, Kind>, account: Account, generation: nat, h: Hash,
      kind: Kind)
    requires h !in bound
    ensures var rows := BindRoutes(affinity, bound, account, generation);
            BindRoutes(affinity, bound[h := kind], account, generation)
            == if h !in rows || rows[h].generation <= generation then rows[h := Route(kind, account, generation)]
                else rows
  {
  }

  lemma LegacyRouteStep(affinity: map<Hash, Route>, bound: map<Hash, Kind>, account: Account, h: Hash, kind: Kind)
    requires h !in bound
    ensures var rows := LegacyRoutes(affinity, bound, account);
            LegacyRoutes(affinity, bound[h := kind], account)
            == rows[h := Route(kind, account, if h in rows then rows[h].generation else 0)]
  {
  }

  lemma NothingBound(table: map<Hash, KeyRow>, affinity: map<Hash, Route>, root: Hash, account: Account,
      generation: nat)
    ensures KeyTable([]) == map[]
    ensures ClaimKeys(table, root, map[]) == table
    ensures BindRoutes(affinity, map[], account, generation) == affinity
    ensures LegacyRoutes(affinity, map[], account) == affinity
  {
  }

  lemma OwnKey(db: Db, root: Hash, bound: seq<RouteKey>, n: nat)
    requires Distinct(bound) && !Foreign(db, root, KeyTable(bound)) && n < |bound|
    ensures bound[n].hash in db.keys ==> db.keys[bound[n].hash].root == root
  {
    assert bound[n] in bound;
  }

  /** Once the merged keys are claimed, no key is left under a merged root. */
  lemma MergedRootsEmpty(before: Db, root: Hash, input: map<Hash, Kind>, d: Decision)
    requires d.roots == PriorRoots(before.keys, input) + {root} && d.keys == MergedKeys(before.keys, d.roots, input)
    ensures var claimed := ClaimKeys(before.keys, root, d.keys);
            forall k | k in claimed :: claimed[k].root !in d.roots - {root}
  {
    forall k | k in before.keys ensures k in d.keys <==> before.keys[k].root in d.roots {
      TouchedKeys(before, root, input, d, k);
    }
  }

  class Store {
    var accounts: map<Account, string>
    var roots: map<Hash, Root>
    var keys: map<Hash, KeyRow>
    var affinity: map<Hash, Route>

    ghost function State(): Db
      reads this
    {
      Db(accounts, roots, keys, affinity)
    }

    /** Claims every key of the merged tree, one upsert per key. */
    method ClaimAll(claimed: map<Hash, Kind>, root: Hash)
      modifies this`keys
      ensures keys == ClaimKeys(old(keys), root, claimed)
    {
      var todo := claimed.Keys;
      while todo != {}
        invariant todo <= claimed.Keys
        invariant keys.Keys == old(keys).Keys + (claimed.Keys - todo)
        invariant forall k | k in keys ::
                    keys[k] == if k in claimed && k !in todo then KeyRow(root, claimed[k]) else old(keys)[k]
        decreases todo
      {
        var k :| k in todo;
        keys := keys[k := KeyRow(root, claimed[k])];
        todo := todo - {k};
      }
    }

    /** Deletes merged roots; the cascade to `session_route_keys` finds no key left under them. */
    method DeleteRoots(merged: set<Hash>)
      requires forall k | k in keys :: keys[k].root !in merged
      modifies this`roots, this`keys
      ensures roots == old(roots) - merged
      ensures keys == old(keys)
    {
      var todo := merged;
      while todo != {}
        invariant todo <= merged
        invariant roots == old(roots) - (merged - todo)
        invariant keys == old(keys)
        decreases todo
      {
        var r :| r in todo;
        roots := roots - {r};
        keys := map k | k in keys && keys[k].root != r :: keys[k];
        todo := todo - {r};
      }
    }

    /** Rewrites the sticky route of every key of the tree. */
    method RouteAll(tree: map<Hash, Kind>, account: Account, generation: nat)
      modifies this`affinity
      ensures affinity == WriteRoutes(old(affinity), tree, account, generation)
    {
      var todo := tree.Keys;
      while todo != {}
        invariant todo <= tree.Keys
        invariant affinity.Keys == old(affinity).Keys + (tree.Keys - todo)
        invariant forall k | k in affinity ::
                    affinity[k] == if k in tree && k !in todo then Route(tree[k], account, generation)
                        else old(affinity)[k]
        decreases todo
      {
        var k :| k in todo;
        affinity := affinity[k := Route(tree[k], account, generation)];
        todo := todo - {k};
      }
    }

    /** The keys of the merged trees, each overlaid with the kind the command gives it. */
    method MergeKeys(merged: set<Hash>, input: map<Hash, Kind>) returns (all: map<Hash, Kind>)
      ensures all == MergedKeys(keys, merged, input)
    {
      var existing := KeysUnder(keys, merged);
      all := map k | k in existing :: keys[k].kind;
      var todo := input.Keys;
      while todo != {}
        invariant todo <= input.Keys
        invariant all.Keys == existing + (input.Keys - todo)
        invariant forall k | k in all :: all[k] == if k in input && k !in todo then input[k] else keys[k].kind
        decreases todo
      {
        var k :| k in todo;
        all := all[k := input[k]];
        todo := todo - {k};
      }
    }

    /** The labels of the accounts the keys are routed to, and of the accounts of live connections. */
    method PreviousAccounts(routed: set<Hash>, live: set<Account>) returns (labels: set<string>)
      ensures labels == PreviousLabels(accounts, affinity, routed, live)
    {
      ghost var routedLabels := set k | k in routed && k in affinity && affinity[k].account in accounts ::
        DisplayLabel(accounts[affinity[k].account]);
      labels := set k | k in routed && k in affinity && affinity[k].account in accounts ::
        DisplayLabel(accounts[affinity[k].account]);
      var todo := live;
      while todo != {}
        invariant todo <= live
        invariant labels == routedLabels
                  + set a | a in live && a !in todo && a in accounts :: DisplayLabel(accounts[a])
        decreases todo
      {
        var a :| a in todo;
        if a in accounts {
          labels := labels + {DisplayLabel(accounts[a])};
        }
        todo := todo - {a};
      }
    }

    /** What a command reads, query by query. */
    method ReadAction(existed: bool, root: Hash, input: map<Hash, Kind>, target: Option<Account>,
                      effective: Option<Account>, env: Env)
        returns (s: Snapshot)
      requires effective == EffectiveAccount(target, env)
      ensures s == Read(State(), existed, root, input, target, env)
    {
      hide PriorRoots, MergedKeys, RoutedKeys, RootGenerations, RouteGenerations, MappingChanged, ChangedKeys, LabelOf,
           PreviousLabels, MaxOf, EffectiveAccount;
      var prior := PriorRoots(keys, input);
      var merged := prior + {root};
      var all := MergeKeys(merged, input);
      var remapped := MappingChanged(keys, existed, root, merged, all);
      var rootGeneration := MaxOf(RootGenerations(roots, merged));
      var routed := RoutedKeys(accounts, affinity, all.Keys);
      var generations := RouteGenerations(affinity, routed);
      var previous := PreviousAccounts(routed, env.live);
      var changed := 0;
      if effective.Some? {
        changed := |ChangedKeys(accounts, affinity, all, effective.value)|;
      }
      s := Snapshot(target.Some? ==> target.value in accounts, prior, all, routed, rootGeneration, generations,
                    remapped, changed, LabelOf(accounts, target), LabelOf(accounts, effective), previous);
    }

    /** The account that will serve the tree, and whether it is not the one asked for. */
    method ChooseAccount(target: Option<Account>, env: Env) returns (effective: Option<Account>, usedFallback: bool)
      ensures effective == EffectiveAccount(target, env)
      ensures usedFallback <==> target.Some? && target.value !in env.eligible
    {
      effective, usedFallback := env.choice, false;
      if target.Some? {
        if target.value in env.eligible {
          effective := target;
        } else {
          usedFallback := true;
        }
      }
    }

    /** Whether the tree has to move, and the highest generation there is. */
    method JudgeMove(s: Snapshot, effective: Option<Account>, env: Env) returns (current: nat, move: bool)
      ensures current == Newest(s) && move == RequiresMove(s, effective, env)
    {
      hide MaxOf;
      current, move := s.rootGeneration, false;
      if current < MaxOf(s.generations) {
        current := MaxOf(s.generations);
      }
      if effective.Some? {
        var liveChanged := exists a | a in env.live :: a != effective.value;
        var mismatch := exists g | g in s.generations :: g != current;
        move := s.changed != 0 || liveChanged || s.remapped || mismatch;
      }
    }

    /** The reads of a command and the decision it takes on them. */
    method DecideAction(existed: bool, root: Hash, input: map<Hash, Kind>, target: Option<Account>, env: Env)
        returns (decision: Result<Decision, Error>)
      ensures decision == Decide(State(), existed, root, input, target, env)
    {
      hide Read, Newest, RequiresMove, EffectiveAccount;
      var effective, usedFallback := ChooseAccount(target, env);
      var s := ReadAction(existed, root, input, target, effective, env);
      if !s.targetKnown || (!existed && s.prior == {} && s.routed == {} && env.live == {}) {
        return Err(NotFound);
      }
      var current, move := JudgeMove(s, effective, env);
      var generation := current;
      if move {
        if current >= I64_MAX {
          return Err(Overflow);
        }
        generation := current + 1;
      }
      var status := NoOp;
      if effective.None? {
        status := Pending;
      } else if usedFallback {
        status := Fallback;
      } else if move {
        status := Applied;
      }
      decision := Ok(Decision(s.prior + {root}, s.keys, effective, move, current, generation,
                              Response(status, s.requested, s.effective, s.previous, generation, |s.keys|, s.changed,
                                       |s.prior - {root}|)));
    }

    /** The writes of a decided command, after the root row has been inserted. */
    method WriteDecision(root: Hash, input: map<Hash, Kind>, action: Action, target: Option<Account>, d: Decision)
      requires root in roots && root in input && (d.move ==> d.effective.Some?)
      requires d.roots == PriorRoots(keys, input) + {root} && d.keys == MergedKeys(keys, d.roots, input)
      modifies this
      ensures State() == Commit(old(State()), root, action, target, d)
    {
      hide ClaimKeys, WriteRoutes, PriorRoots, MergedKeys;
      ghost var before := State();
      var newest := if roots[root].generation < d.current then d.current else roots[root].generation;
      roots := roots[root := roots[root].(generation := newest)];
      ClaimAll(d.keys, root);
      MergedRootsEmpty(before, root, input, d);
      DeleteRoots(d.roots - {root});
      if d.move {
        RouteAll(d.keys, d.effective.value, d.generation);
      }
      roots := roots[root := Root(d.generation, Some(action), target, d.effective, Some(d.response.status))];
      assert roots == (before.roots - d.roots)[root := roots[root]];
    }

    /** One route command; refused commands and dry runs roll the transaction back. */
    method ApplyAction(request: Request, env: Env) returns (result: Result<Response, Error>)
      modifies this
      ensures State() == Apply(old(State()), request, env).0
      ensures result == Apply(old(State()), request, env).1
    {
      hide Decide, Commit, KeyTable;
      if !ValidHash(request.root) {
        return Err(BadRequest);
      }
      var validated := ValidateKeys(request.keys);
      if validated.None? {
        return Err(BadRequest);
      }
      CollectSound(request.keys);
      var input := KeyTable(validated.value);
      var root := Hash(request.root);
      if root !in input || (request.action == Rebalance) != request.target.None? {
        return Err(BadRequest);
      }
      var existed := root in roots;
      var saved := roots;
      if !request.dryRun && !existed {
        roots := roots[root := FRESH_ROOT];
      }
      var decision := DecideAction(existed, root, input, request.target, env);
      if decision.Err? {
        roots := saved;
        return Err(decision.error);
      }
      if request.dryRun {
        roots := saved;
      } else {
        DecideMeaning(State(), existed, root, input, request.target, env);
        WriteDecision(root, input, request.action, request.target, decision.value);
      }
      result := Ok(decision.value.response);
    }

    /** The key and sticky-route upserts of a bind under a current epoch. */
    method BindRows(bound: seq<RouteKey>, root: Hash, account: Account, generation: nat)
      requires Distinct(bound) && !Foreign(State(), root, KeyTable(bound))
      modifies this`keys, this`affinity
      ensures keys == ClaimKeys(old(keys), root, KeyTable(bound))
      ensures affinity == BindRoutes(old(affinity), KeyTable(bound), account, generation)
    {
      hide ClaimKeys, BindRoutes, KeyTable, Foreign;
      NothingBound(keys, affinity, root, account, generation);
      for n := 0 to |bound|
        invariant Distinct(bound[..n])
        invariant keys == ClaimKeys(old(keys), root, KeyTable(bound[..n]))
        invariant affinity == BindRoutes(old(affinity), KeyTable(bound[..n]), account, generation)
      {
        var key := bound[n];
        TablePrefix(bound, n);
        OwnKey(old(State()), root, bound, n);
        ClaimStep(old(keys), root, KeyTable(bound[..n]), key.hash, key.kind);
        BindRouteStep(old(affinity), KeyTable(bound[..n]), account, generation, key.hash, key.kind);
        if key.hash !in keys {
          keys := keys[key.hash := KeyRow(root, key.kind)];
        } else if keys[key.hash].root == root {
          keys := keys[key.hash := keys[key.hash].(kind := key.kind)];
        }
        if key.hash !in affinity || affinity[key.hash].generation <= generation {
          affinity := affinity[key.hash := Route(key.kind, account, generation)];
        }
      }
      assert bound[..|bound|] == bound;
    }

    /** The key and sticky-route upserts of a bind without an epoch. */
    method LegacyRows(bound: seq<RouteKey>, root: Hash, account: Account)
      requires Distinct(bound) && !Foreign(State(), root, KeyTable(bound))
      modifies this`keys, this`affinity
      ensures keys == ClaimKeys(old(keys), root, KeyTable(bound))
      ensures affinity == LegacyRoutes(old(affinity), KeyTable(bound), account)
    {
      hide ClaimKeys, LegacyRoutes, KeyTable, Foreign;
      NothingBound(keys, affinity, root, account, 0);
      for n := 0 to |bound|
        invariant Distinct(bound[..n])
        invariant keys == ClaimKeys(old(keys), root, KeyTable(bound[..n]))
        invariant affinity == LegacyRoutes(old(affinity), KeyTable(bound[..n]), account)
      {
        var key := bound[n];
        TablePrefix(bound, n);
        OwnKey(old(State()), root, bound, n);
        ClaimStep(old(keys), root, KeyTable(bound[..n]), key.hash, key.kind);
        LegacyRouteStep(old(affinity), KeyTable(bound[..n]), account, key.hash, key.kind);
        if key.hash !in keys {
          keys := keys[key.hash := KeyRow(root, key.kind)];
        } else if keys[key.hash].root == root {
          keys := keys[key.hash := keys[key.hash].(kind := key.kind)];
        }
        if key.hash in affinity {
          affinity := affinity[key.hash := affinity[key.hash].(kind := key.kind, account := account)];
        } else {
          affinity := affinity[key.hash := Route(key.kind, account, 0)];
        }
      }
      assert bound[..|bound|] == bound;
    }

    /** A bind under a captured epoch. */
    method BindCurrent(bound: seq<RouteKey>, account: Account, epoch: Epoch) returns (result: Result<bool, Error>)
      requires Distinct(bound)
      modifies this
      ensures State() == BindAtEpoch(old(State()), KeyTable(bound), account, epoch).0
      ensures result == BindAtEpoch(old(State()), KeyTable(bound), account, epoch).1
    {
      hide ClaimKeys, BindRoutes, FollowAccount;
      if epoch.root !in roots || roots[epoch.root].generation != epoch.generation {
        return Ok(false);
      }
      var row := roots[epoch.root];
      var input := KeyTable(bound);
      if exists k | k in input :: k in keys && keys[k].root != epoch.root {
        return Ok(false);
      }
      if account !in accounts {
        return Err(ForeignKey);
      }
      BindRows(bound, epoch.root, account, epoch.generation);
      if row.action == Some(Reroute) && row.effective != Some(account) {
        affinity := FollowAccount(affinity, keys, epoch.root, account, epoch.generation);
        var status := if row.requested != Some(account) then Fallback else Applied;
        roots := roots[epoch.root := row.(effective := Some(account), status := Some(status))];
      }
      result := Ok(true);
    }

    /** A bind without an epoch: allowed only while no command has claimed any of the keys. */
    method BindUnclaimed(bound: seq<RouteKey>, account: Account) returns (result: Result<bool, Error>)
      requires Distinct(bound) && bound != [] && Rooted(State())
      modifies this
      ensures State() == BindLegacy(old(State()), KeyTable(bound), PreferredRoot(bound), account).0
      ensures result == BindLegacy(old(State()), KeyTable(bound), PreferredRoot(bound), account).1
    {
      hide ClaimKeys, LegacyRoutes, KeyTable, PreferredRoot, LegacyRoot;
      var preferred, input := PreferredRoot(bound), KeyTable(bound);
      ghost var before := State();
      var saved := roots;
      var inserted := preferred !in roots;
      if inserted {
        roots := roots[preferred := FRESH_ROOT];
      }
      var mapped := PriorRoots(keys, input);
      if |mapped| > 1 || exists r | r in mapped :: !Untouched(roots[r]) {
        roots := saved;
        return Ok(false);
      }
      if account !in accounts {
        roots := saved;
        return Err(ForeignKey);
      }
      var root := LegacyRoot(keys, input, preferred);
      SoleRoot(before, input, preferred);
      if inserted && root != preferred {
        roots := roots - {preferred};
      }
      assert roots == WithRoot(before, root).roots;
      LegacyRows(bound, root, account);
      result := Ok(true);
    }

    /** Binds sticky keys, with or without an epoch captured earlier. */
    method BindAffinities(raw: seq<RawKey>, account: Account, epoch: Option<Epoch>)
        returns (result: Result<bool, Error>)
      requires Rooted(State())
      modifies this
      ensures State() == Bind(old(State()), raw, account, epoch).0
      ensures result == Bind(old(State()), raw, account, epoch).1
    {
      hide BindAtEpoch, BindLegacy, Validate, KeyTable, PreferredRoot;
      var validated := ValidateKeys(raw);
      if validated.None? {
        return Err(BadRequest);
      }
      if validated.value == [] {
        return Ok(true);
      }
      ValidationExact(raw);
      match epoch {
        case Some(e) => result := BindCurrent(validated.value, account, e);
        case None => result := BindUnclaimed(validated.value, account);
      }
    }

    /** Pruning forgets sticky rows that have not been used for the retention period, and nothing else. */
    method PruneHistory(expired: set<Hash>)
      modifies this`affinity
      ensures forall k :: k in affinity <==> k in old(affinity) && k !in expired
      ensures forall k | k in affinity :: affinity[k] == old(affinity)[k]
      ensures Inv(old(State())) ==> Inv(State()) && Grows(old(State()), State())
      ensures State() == Prune(old(State()), expired)
    {
      affinity := affinity - expired;
      if Inv(old(State())) {
        PruneKeepsInv(old(State()), expired);
      }
    }

    /** Deleting an account cascades to its sticky rows and clears the roots that mention it. */
    method DeleteAccountRow(deleted: Account) returns (result: Result<(), Error>)
      modifies this
      ensures result.Ok? ==> Forgets(old(State()), State(), deleted)
      ensures deleted in old(accounts) ==> State() == DeleteAccount(old(State()), deleted) && result == Ok(())
      ensures deleted !in old(accounts) ==> State() == old(State()) && result == Err(NotFound)
    {
      if deleted !in accounts {
        return Err(NotFound);
      }
      accounts := accounts - {deleted};
      affinity := map k | k in affinity && affinity[k].account != deleted :: affinity[k];
      roots := map r | r in roots ::
        roots[r].(requested := ForgetAccount(roots[r].requested, deleted),
                  effective := ForgetAccount(roots[r].effective, deleted));
      DeleteAccountForgets(old(State()), deleted);
      result := Ok(());
    }
  }

  /** When a legacy bind may proceed, its keys belong to at most the one root it attaches to. */
  lemma SoleRoot(db: Db, input: map<Hash, Kind>, preferred: Hash)
    requires Rooted(db) && |PriorRoots(db.keys, input)| <= 1
    ensures var root := LegacyRoot(db.keys, input, preferred);
            && !Foreign(db, root, input)
            && (PriorRoots(db.keys, input) == {} ==> root == preferred)
            && (PriorRoots(db.keys, input) != {} ==> root in db.roots)
  {
    var mapped := PriorRoots(db.keys, input);
    if mapped != {} {
      var r :| r in mapped;
      assert |mapped - {r}| == 0;
      assert mapped == {r};
    }
    forall k | k in input && k in db.keys ensures db.keys[k].root == LegacyRoot(db.keys, input, preferred) {
      assert db.keys[k].root in mapped;
    }
  }
}
