/** Binds, pruning and account changes keep the routing invariant and only let the tables grow. */
module RouteBinds {
  import opened Base
  import opened RouteKeys
  import opened Routes
  import opened RouteInvariant

  /** The keys claimed by a bind join its tree and leave every other mapping alone. */
  lemma ClaimWithoutConflict(db: Db, root: Hash, input: map<Hash, Kind>, k: Hash)
    requires !Foreign(db, root, input) && k in db.keys
    ensures k in ClaimKeys(db.keys, root, input)
    ensures ClaimKeys(db.keys, root, input)[k].root == db.keys[k].root
  {
  }

  /** `after` keeps the trees of `before`, up to new keys under `root` and the account of `root`. */
  ghost predicate Extends(before: Db, after: Db, root: Hash) {
    && Rooted(before)
    && after.accounts == before.accounts
    && root in after.roots && root in after.keys && after.keys[root].root == root
    && before.roots.Keys <= after.roots.Keys <= before.roots.Keys + {root}
    && (forall r | r in before.roots ::
          && after.roots[r].generation == before.roots[r].generation
          && after.roots[r].action == before.roots[r].action
          && (r != root ==> after.roots[r] == before.roots[r]))
    && before.keys.Keys <= after.keys.Keys
    && (forall k | k in before.keys :: after.keys[k].root == before.keys[k].root)
    && (forall k | k in after.keys && k !in before.keys :: after.keys[k].root == root)
  }

  lemma ExtendsGrows(before: Db, after: Db, root: Hash)
    requires Extends(before, after, root)
    ensures Rooted(after) && Grows(before, after)
  {
    forall k | k in after.keys ensures after.keys[k].root in after.roots {
      if k in before.keys {
        assert before.keys[k].root in before.roots;
      }
    }
  }

  lemma ClaimExtends(db: Db, root: Hash, input: map<Hash, Kind>)
    requires !Foreign(db, root, input)
    ensures var keys := ClaimKeys(db.keys, root, input);
            && db.keys.Keys <= keys.Keys
            && (forall k | k in db.keys :: keys[k].root == db.keys[k].root)
            && (forall k | k in keys && k !in db.keys :: keys[k].root == root)
            && (root in input ==> root in keys)
  {
    forall k | k in db.keys ensures ClaimKeys(db.keys, root, input)[k].root == db.keys[k].root {
      ClaimWithoutConflict(db, root, input, k);
    }
  }

  lemma EpochBindExtends(db: Db, input: map<Hash, Kind>, account: Account, epoch: Epoch)
    requires Rooted(db) && BindAtEpoch(db, input, account, epoch).1 == Ok(true)
    ensures Extends(db, BindAtEpoch(db, input, account, epoch).0, epoch.root)
  {
    ClaimExtends(db, epoch.root, input);
    assert BindAtEpoch(db, input, account, epoch).0.keys == ClaimKeys(db.keys, epoch.root, input);
    hide ClaimKeys, BindRoutes, FollowAccount, Foreign;
  }

  /** The row of the bound tree after a successful epoch bind. */
  lemma EpochBindRow(db: Db, input: map<Hash, Kind>, account: Account, epoch: Epoch)
    requires Inv(db) && BindAtEpoch(db, input, account, epoch).1 == Ok(true)
    ensures var after := BindAtEpoch(db, input, account, epoch).0;
            var row := after.roots[epoch.root];
            && RowOk(row)
            && account in after.accounts
            && (row.requested.Some? ==> row.requested.value in after.accounts)
            && (row.effective.Some? ==> row.effective.value in after.accounts)
            && (row.action == Some(Reroute) ==> row.effective == Some(account))
  {
    assert RowOk(db.roots[epoch.root]);
  }

  lemma EpochBindRoute(db: Db, input: map<Hash, Kind>, account: Account, epoch: Epoch, k: Hash)
    requires Inv(db) && BindAtEpoch(db, input, account, epoch).1 == Ok(true)
    requires k in BindAtEpoch(db, input, account, epoch).0.affinity
    ensures var after := BindAtEpoch(db, input, account, epoch).0;
            var tree := k in after.keys && after.keys[k].root == epoch.root;
            && (tree && db.roots[epoch.root].action == Some(Reroute) ==>
                  after.affinity[k].account == account && after.affinity[k].generation == epoch.generation)
            && (tree ==> after.affinity[k].generation <= epoch.generation && after.affinity[k].account in db.accounts)
            && (!tree ==> k in db.affinity && after.affinity[k] == db.affinity[k] && k !in input)
  {
    if k in db.affinity && k in db.keys {
      assert Follows(db, k);
      ClaimWithoutConflict(db, epoch.root, input, k);
    }
  }

  /** A sticky row outside the bound tree is untouched; one inside agrees with the tree's row. */
  ghost predicate RouteKept(before: Db, after: Db, root: Hash, k: Hash)
    requires root in after.roots && k in after.affinity
  {
    var row := after.roots[root];
    if k in after.keys && after.keys[k].root == root then
      && after.affinity[k].account in after.accounts
      && after.affinity[k].generation <= row.generation
      && (row.action == Some(Reroute) && row.effective.Some? ==>
            after.affinity[k].account == row.effective.value && after.affinity[k].generation == row.generation)
    else
      k in before.affinity && after.affinity[k] == before.affinity[k]
  }

  lemma ExtensionKeepsInv(before: Db, after: Db, root: Hash)
    requires Inv(before) && Extends(before, after, root)
    requires RowOk(after.roots[root])
    requires after.roots[root].requested.Some? ==> after.roots[root].requested.value in after.accounts
    requires after.roots[root].effective.Some? ==> after.roots[root].effective.value in after.accounts
    requires forall k | k in after.affinity :: RouteKept(before, after, root, k)
    ensures Inv(after) && Grows(before, after)
  {
    ExtendsGrows(before, after, root);
    forall k | k in after.affinity
      ensures && after.affinity[k].account in after.accounts
              && after.affinity[k].generation <= (if k in after.keys then Tree(after, k).generation else 0)
              && (k in after.keys ==> Follows(after, k))
    {
      assert RouteKept(before, after, root, k);
      if k in before.affinity && k in before.keys {
        assert Follows(before, k);
      }
    }
    InvFromParts(after);
  }

  lemma EpochBindKeepsInv(db: Db, input: map<Hash, Kind>, account: Account, epoch: Epoch)
    requires Inv(db) && BindAtEpoch(db, input, account, epoch).1 == Ok(true)
    ensures Inv(BindAtEpoch(db, input, account, epoch).0)
    ensures Grows(db, BindAtEpoch(db, input, account, epoch).0)
  {
    var after := BindAtEpoch(db, input, account, epoch).0;
    EpochBindExtends(db, input, account, epoch);
    EpochBindRow(db, input, account, epoch);
    forall k | k in after.affinity ensures RouteKept(db, after, epoch.root, k) {
      EpochBindRoute(db, input, account, epoch, k);
    }
    ExtensionKeepsInv(db, after, epoch.root);
  }

  lemma AtMostOne(s: set<Hash>)
    requires |s| <= 1
    ensures s == {} || exists r | r in s :: s == {r}
  {
    if s != {} {
      var r :| r in s;
      assert |s - {r}| == 0;
      assert s == {r};
    }
  }

  /** A legacy bind attaches its keys to one untouched tree, which is new or holds all of them already. */
  lemma LegacyTarget(db: Db, input: map<Hash, Kind>, preferred: Hash, account: Account)
    requires Inv(db) && preferred in input
    requires BindLegacy(db, input, preferred, account).1 == Ok(true)
    ensures var root := LegacyRoot(db.keys, input, preferred);
            && !Foreign(db, root, input)
            && (root in db.roots ==> db.roots[root] == FRESH_ROOT)
            && (root !in db.roots ==> root in input)
  {
    var mapped := PriorRoots(db.keys, input);
    AtMostOne(mapped);
    var root := LegacyRoot(db.keys, input, preferred);
    if mapped != {} {
      forall k | k in input && k in db.keys ensures db.keys[k].root == root {
        assert db.keys[k].root in mapped;
      }
      assert root in mapped && root in db.roots && RowOk(db.roots[root]);
    }
  }

  lemma AttachExtends(before: Db, after: Db, root: Hash, input: map<Hash, Kind>)
    requires Rooted(before) && !Foreign(before, root, input) && (root !in before.roots ==> root in input)
    requires after.accounts == before.accounts && after.roots == WithRoot(before, root).roots
    requires after.keys == ClaimKeys(before.keys, root, input)
    ensures Extends(before, after, root)
  {
    ClaimExtends(before, root, input);
    hide ClaimKeys, Foreign;
  }

  lemma LegacyBindExtends(db: Db, input: map<Hash, Kind>, preferred: Hash, account: Account)
    requires Inv(db) && preferred in input
    requires BindLegacy(db, input, preferred, account).1 == Ok(true)
    ensures Extends(db, BindLegacy(db, input, preferred, account).0, LegacyRoot(db.keys, input, preferred))
  {
    var after, root := BindLegacy(db, input, preferred, account).0, LegacyRoot(db.keys, input, preferred);
    LegacyTarget(db, input, preferred, account);
    assert after.accounts == db.accounts && after.roots == WithRoot(db, root).roots;
    assert after.keys == ClaimKeys(db.keys, root, input);
    assert Rooted(db);
    hide Inv, Rooted, BindLegacy, LegacyRoot, WithRoot, ClaimKeys, Foreign;
    AttachExtends(db, after, root, input);
  }

  lemma LegacyBindKeepsInv(db: Db, input: map<Hash, Kind>, preferred: Hash, account: Account)
    requires Inv(db) && preferred in input
    requires BindLegacy(db, input, preferred, account).1 == Ok(true)
    ensures Inv(BindLegacy(db, input, preferred, account).0)
    ensures Grows(db, BindLegacy(db, input, preferred, account).0)
  {
    var after := BindLegacy(db, input, preferred, account).0;
    var root := LegacyRoot(db.keys, input, preferred);
    LegacyTarget(db, input, preferred, account);
    LegacyBindExtends(db, input, preferred, account);
    forall k | k in after.affinity ensures RouteKept(db, after, root, k) {
      if k in db.keys && k in db.affinity {
        ClaimWithoutConflict(db, root, input, k);
      }
    }
    ExtensionKeepsInv(db, after, root);
  }

  lemma {:induction false} PreferredIsKey(keys: seq<RouteKey>)
    requires keys != []
    ensures PreferredRoot(keys) in HashesOf(keys)
  {
    assert keys[0] in keys;
    if |keys| > 1 {
      PreferredIsKey(keys[1..]);
      forall k | k in keys[1..] ensures k in keys {
      }
    }
  }

  lemma BindKeysKeepsInv(db: Db, keys: seq<RouteKey>, account: Account, epoch: Option<Epoch>)
    requires Inv(db) && Distinct(keys) && keys != []
    requires BindKeys(db, keys, account, epoch).1 == Ok(true)
    ensures Inv(BindKeys(db, keys, account, epoch).0)
    ensures Grows(db, BindKeys(db, keys, account, epoch).0)
  {
    match epoch
    case Some(e) =>
      EpochBindKeepsInv(db, KeyTable(keys), account, e);
    case None =>
      PreferredIsKey(keys);
      LegacyBindKeepsInv(db, KeyTable(keys), PreferredRoot(keys), account);
  }

  lemma FailedBindChangesNothing(db: Db, keys: seq<RouteKey>, account: Account, epoch: Option<Epoch>)
    requires Distinct(keys) && keys != []
    requires BindKeys(db, keys, account, epoch).1 != Ok(true)
    ensures BindKeys(db, keys, account, epoch).0 == db
  {
  }

  /** Every bind keeps the invariant; one that does not succeed changes nothing. */
  lemma BindKeepsInv(db: Db, raw: seq<RawKey>, account: Account, epoch: Option<Epoch>)
    requires Inv(db)
    ensures Inv(Bind(db, raw, account, epoch).0)
    ensures Grows(db, Bind(db, raw, account, epoch).0)
    ensures Bind(db, raw, account, epoch).1 != Ok(true) ==> Bind(db, raw, account, epoch).0 == db
  {
    var keys := Validate(raw);
    if keys.Some? && keys.value != [] {
      CollectSound(raw);
      if BindKeys(db, keys.value, account, epoch).1 == Ok(true) {
        BindKeysKeepsInv(db, keys.value, account, epoch);
      } else {
        FailedBindChangesNothing(db, keys.value, account, epoch);
      }
    }
  }

  /** A bind without valid keys changes nothing; any other is the bind of its validated table. */
  lemma BindUnfolds(db: Db, raw: seq<RawKey>, account: Account, epoch: Option<Epoch>)
    ensures Validate(raw).None? || raw == [] ==> Bind(db, raw, account, epoch).0 == db
    ensures Validate(raw).Some? && raw != [] ==>
              && Validate(raw).value != [] && Distinct(Validate(raw).value)
              && Bind(db, raw, account, epoch) == BindKeys(db, Validate(raw).value, account, epoch)
  {
    if Validate(raw).Some? {
      ValidationExact(raw);
      CollectSound(raw);
      if raw != [] {
        assert Normal(raw[0]) in NormalSet(raw);
        hide NormalSet;
      }
    }
  }

  lemma PruneKeepsInv(db: Db, expired: set<Hash>)
    requires Inv(db)
    ensures Inv(Prune(db, expired)) && Grows(db, Prune(db, expired))
  {
    var after := Prune(db, expired);
    forall k | k in after.affinity && k in after.keys ensures Follows(after, k) {
      assert Follows(db, k);
    }
  }

  lemma DeletedRows(db: Db, deleted: Account, r: Hash)
    requires Inv(db) && r in db.roots
    ensures var after := DeleteAccount(db, deleted);
            && RowOk(after.roots[r])
            && (after.roots[r].requested.Some? ==> after.roots[r].requested.value in after.accounts)
            && (after.roots[r].effective.Some? ==> after.roots[r].effective.value in after.accounts)
  {
    assert RowOk(db.roots[r]);
    hide Rooted, Bounded, Unsplit;
  }

  lemma DeletedRoute(db: Db, deleted: Account, k: Hash)
    requires Inv(db) && Rooted(DeleteAccount(db, deleted)) && k in DeleteAccount(db, deleted).affinity
    ensures var after := DeleteAccount(db, deleted);
            && after.affinity[k].account in after.accounts
            && after.affinity[k].generation <= (if k in after.keys then Tree(after, k).generation else 0)
            && (k in after.keys ==> Follows(after, k))
  {
    if k in db.keys {
      assert Follows(db, k);
    }
    hide RowOk;
  }

  lemma DeletedGrows(db: Db, deleted: Account)
    requires Rooted(db)
    ensures Rooted(DeleteAccount(db, deleted)) && Grows(db, DeleteAccount(db, deleted))
  {}

  lemma DeleteAccountKeepsInv(db: Db, deleted: Account)
    requires Inv(db)
    ensures Inv(DeleteAccount(db, deleted)) && Grows(db, DeleteAccount(db, deleted))
  {
    DeletedGrows(db, deleted);
    var after := DeleteAccount(db, deleted);
    forall r | r in after.roots
      ensures && RowOk(after.roots[r])
              && (after.roots[r].requested.Some? ==> after.roots[r].requested.value in after.accounts)
              && (after.roots[r].effective.Some? ==> after.roots[r].effective.value in after.accounts)
    {
      DeletedRows(db, deleted, r);
    }
    forall k | k in after.affinity
      ensures && after.affinity[k].account in after.accounts
              && after.affinity[k].generation <= (if k in after.keys then Tree(after, k).generation else 0)
              && (k in after.keys ==> Follows(after, k))
    {
      DeletedRoute(db, deleted, k);
    }
    hide Inv, Grows, DeleteAccount, RowOk, Follows;
    InvFromParts(after);
  }

  /** Nothing names the account any more, and nothing else has changed. */
  ghost predicate Forgets(before: Db, after: Db, account: Account) {
    && after.accounts.Keys == before.accounts.Keys - {account}
    && (forall a | a in after.accounts :: after.accounts[a] == before.accounts[a])
    && after.keys == before.keys && after.roots.Keys == before.roots.Keys
    && (forall k :: k in after.affinity <==> k in before.affinity && before.affinity[k].account != account)
    && (forall k | k in after.affinity :: after.affinity[k] == before.affinity[k])
    && (forall r | r in after.roots ::
          var was, now := before.roots[r], after.roots[r];
          && now.generation == was.generation && now.action == was.action && now.status == was.status
          && now.requested != Some(account) && now.effective != Some(account)
          && (was.requested != Some(account) ==> now.requested == was.requested)
          && (was.effective != Some(account) ==> now.effective == was.effective))
  }

  lemma DeleteAccountForgets(db: Db, deleted: Account)
    ensures Forgets(db, DeleteAccount(db, deleted), deleted)
  {}

  lemma AddAccountKeepsInv(db: Db, account: Account, name: string)
    requires Inv(db)
    ensures Inv(AddAccount(db, account, name)) && Grows(db, AddAccount(db, account, name))
  {
    var after := AddAccount(db, account, name);
    forall k | k in after.affinity && k in after.keys ensures Follows(after, k) {
      assert Follows(db, k);
    }
  }

  /** Every route command keeps the invariant, whether it commits, is refused or is a dry run. */
  lemma ApplyKeepsInv(db: Db, request: Request, env: Env)
    requires Inv(db) && EnvOk(db, env)
    ensures Inv(Apply(db, request, env).0)
    ensures Grows(db, Apply(db, request, env).0)
    ensures Apply(db, request, env).1.Err? ==> Apply(db, request, env).0 == db
  {
    var checked := Checked(request);
    if !request.dryRun && checked.Some? {
      var root := Hash(request.root);
      ApplyUnfolds(db, request, env);
      var decision := Decide(db, root in db.roots, root, checked.value, request.target, env);
      if decision.Ok? {
        DecideSound(db, root in db.roots, root, checked.value, request.target, env);
        CommitGrows(db, root, checked.value, request.action, request.target, env, decision.value);
        CommitKeepsInv(db, root, checked.value, request.action, request.target, env, decision.value);
      }
    }
  }
}
