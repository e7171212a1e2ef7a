/** What a bind answers, and everything it leaves behind, in terms of the keys as they arrive. */
module RouteBindEffects {
  import opened Base
  import opened RouteKeys
  import opened Routes
  import opened RouteInvariant
  import opened RouteBinds

  // ---------------------------------------------------------------- the answer

  ghost predicate Acceptable(raw: seq<RawKey>) {
    |raw| <= MAX_ROUTE_KEYS && (forall i | 0 <= i < |raw| :: WellFormed(raw[i])) && Functional(NormalSet(raw))
  }

  /** The epoch is not the one of its tree any more, or one of the keys is in another tree. */
  ghost predicate EpochRefuses(db: Db, raw: seq<RawKey>, epoch: Epoch) {
    || epoch.root !in db.roots || db.roots[epoch.root].generation != epoch.generation
    || exists x | x in NormalSet(raw) :: x.hash in db.keys && db.keys[x.hash].root != epoch.root
  }

  /** A command has claimed one of the keys, or two of them are in different trees. */
  ghost predicate ClaimRefuses(db: Db, raw: seq<RawKey>)
    requires Rooted(db)
  {
    || (exists x | x in NormalSet(raw) :: Claimed(db, x.hash))
    || (exists x, y | x in NormalSet(raw) && y in NormalSet(raw) ::
          x.hash in db.keys && y.hash in db.keys && !SameTree(db, x.hash, y.hash))
  }

  ghost predicate Refuses(db: Db, raw: seq<RawKey>, epoch: Option<Epoch>)
    requires Rooted(db)
  {
    match epoch
    case Some(e) => EpochRefuses(db, raw, e)
    case None => ClaimRefuses(db, raw)
  }

  /** `input` holds the keys of the list and no others. */
  ghost predicate Tabled(raw: seq<RawKey>, input: map<Hash, Kind>) {
    && (forall x | x in NormalSet(raw) :: x.hash in input && input[x.hash] == x.kind)
    && (forall h | h in input :: RouteKey(h, input[h]) in NormalSet(raw))
  }

  /** The validated table has the keys of the list and no others. */
  lemma TableOf(raw: seq<RawKey>)
    requires Validate(raw).Some?
    ensures Distinct(Validate(raw).value)
    ensures raw != [] <==> Validate(raw).value != []
    ensures Tabled(raw, KeyTable(Validate(raw).value))
  {
    ValidationExact(raw);
    var keys := Validate(raw).value;
    var input := KeyTable(keys);
    if raw != [] {
      assert Normal(raw[0]) in NormalSet(raw);
    }
    hide NormalSet, Validate;
    forall x | x in NormalSet(raw) ensures x.hash in input && input[x.hash] == x.kind {
      assert x in ElementsOf(keys);
    }
    forall h | h in input ensures RouteKey(h, input[h]) in NormalSet(raw) {
      var x :| x in keys && x.hash == h;
      assert x in ElementsOf(keys);
    }
  }

  lemma MoreThanOne(s: set<Hash>)
    ensures |s| > 1 <==> exists a, b :: a in s && b in s && a != b
  {
    if |s| > 1 {
      var a :| a in s;
      assert |s - {a}| > 0;
      var b :| b in s - {a};
      assert a in s && b in s && a != b;
    }
    if a, b :| a in s && b in s && a != b {
      assert {a, b} <= s;
      assert s == {a, b} + (s - {a, b});
    }
  }

  lemma LegacyRefusesExactly(db: Db, raw: seq<RawKey>, input: map<Hash, Kind>)
    requires Inv(db) && Tabled(raw, input)
    ensures var mapped := PriorRoots(db.keys, input);
            (|mapped| > 1 || exists r | r in mapped :: r in db.roots && !Untouched(db.roots[r]))
            <==> ClaimRefuses(db, raw)
  {
    var mapped := PriorRoots(db.keys, input);
    MoreThanOne(mapped);
    hide NormalSet, Bounded, Unsplit, References;
    forall x | x in NormalSet(raw) && x.hash in db.keys
      ensures db.keys[x.hash].root in mapped && (Claimed(db, x.hash) <==> !Untouched(Tree(db, x.hash)))
    {
      assert RowOk(Tree(db, x.hash));
    }
    forall r | r in mapped ensures exists x | x in NormalSet(raw) :: x.hash in db.keys && db.keys[x.hash].root == r {
      var h :| h in input && h in db.keys && db.keys[h].root == r;
      assert RouteKey(h, input[h]) in NormalSet(raw);
    }
    if |mapped| > 1 {
      var a, b :| a in mapped && b in mapped && a != b;
      var x :| x in NormalSet(raw) && x.hash in db.keys && db.keys[x.hash].root == a;
      var y :| y in NormalSet(raw) && y.hash in db.keys && db.keys[y.hash].root == b;
      assert !SameTree(db, x.hash, y.hash);
    }
  }

  lemma EpochAnswer(db: Db, raw: seq<RawKey>, input: map<Hash, Kind>, account: Account, epoch: Epoch)
    requires Tabled(raw, input)
    ensures var (after, answer) := BindAtEpoch(db, input, account, epoch);
            && answer == (if EpochRefuses(db, raw, epoch) then Ok(false)
                          else if account !in db.accounts then Err(ForeignKey) else Ok(true))
            && (answer != Ok(true) ==> after == db)
  {
    hide NormalSet, ClaimKeys, BindRoutes, FollowAccount;
    assert Foreign(db, epoch.root, input)
      <==> exists x | x in NormalSet(raw) :: x.hash in db.keys && db.keys[x.hash].root != epoch.root;
    hide Foreign, Tabled;
  }

  lemma LegacyAnswer(db: Db, raw: seq<RawKey>, input: map<Hash, Kind>, preferred: Hash, account: Account)
    requires Inv(db) && Tabled(raw, input)
    ensures var (after, answer) := BindLegacy(db, input, preferred, account);
            && answer == (if ClaimRefuses(db, raw) then Ok(false)
                          else if account !in db.accounts then Err(ForeignKey) else Ok(true))
            && (answer != Ok(true) ==> after == db)
  {
    LegacyRefusesExactly(db, raw, input);
    hide Inv, NormalSet, ClaimKeys, LegacyRoutes, LegacyRoot, PriorRoots, ClaimRefuses, Untouched, WithRoot, Tabled;
  }

  lemma ValidAnswer(db: Db, raw: seq<RawKey>, account: Account, epoch: Option<Epoch>)
    requires Inv(db) && raw != [] && Validate(raw).Some?
    ensures var (after, answer) := Bind(db, raw, account, epoch);
            && answer == (if Refuses(db, raw, epoch) then Ok(false)
                          else if account !in db.accounts then Err(ForeignKey) else Ok(true))
            && (answer != Ok(true) ==> after == db)
  {
    TableOf(raw);
    BindUnfolds(db, raw, account, epoch);
    var keys := Validate(raw).value;
    hide NormalSet, Inv, KeyTable, Validate, ClaimRefuses, EpochRefuses, BindAtEpoch, BindLegacy, PreferredRoot, Tabled,
         Bind;
    match epoch
    case None => LegacyAnswer(db, raw, KeyTable(keys), PreferredRoot(keys), account);
    case Some(e) => EpochAnswer(db, raw, KeyTable(keys), account, e);
  }

  /** Every answer a bind can give, each exactly when it is given. */
  lemma BindAnswersExactly(db: Db, raw: seq<RawKey>, account: Account, epoch: Option<Epoch>)
    requires Inv(db)
    ensures var (after, answer) := Bind(db, raw, account, epoch);
            && (answer == Err(BadRequest) <==> !Acceptable(raw))
            && (answer == Ok(false) <==> Acceptable(raw) && raw != [] && Refuses(db, raw, epoch))
            && (answer == Err(ForeignKey) <==>
                  Acceptable(raw) && raw != [] && !Refuses(db, raw, epoch) && account !in db.accounts)
            && (answer == Ok(true) <==>
                  Acceptable(raw) && (raw == [] || (!Refuses(db, raw, epoch) && account in db.accounts)))
            && (answer != Ok(true) || raw == [] ==> after == db)
  {
    ValidationExact(raw);
    hide NormalSet, Inv, Refuses, BindKeys, Functional;
    if Validate(raw).Some? {
      TableOf(raw);
      if raw != [] {
        ValidAnswer(db, raw, account, epoch);
        hide Bind, Validate;
      }
    }
  }

  // ---------------------------------------------------------------- the effect

  /** The key that names a new tree: the first session id, or the first key if there is none. */
  ghost predicate NamesTree(raw: seq<RawKey>, i: nat)
    requires i < |raw|
  {
    if exists j | 0 <= j < |raw| :: Normal(raw[j]).kind == SESSION_ID then
      Normal(raw[i]).kind == SESSION_ID && forall j | 0 <= j < i :: Normal(raw[j]).kind != SESSION_ID
    else i == 0
  }

  /** The tree the keys of a bind belong to afterwards: the epoch's, the one they are in already, or a new one. */
  ghost predicate JoinsTree(db: Db, raw: seq<RawKey>, epoch: Option<Epoch>, root: Hash) {
    match epoch
    case Some(e) => root == e.root
    case None =>
      if exists x | x in NormalSet(raw) :: x.hash in db.keys then
        forall x | x in NormalSet(raw) && x.hash in db.keys :: db.keys[x.hash].root == root
      else exists i: nat | i < |raw| :: NamesTree(raw, i) && root == Hash(raw[i].hash)
  }

  ghost predicate Rerouted(db: Db, root: Hash) { root in db.roots && db.roots[root].action == Some(Reroute) }

  /** The row of that tree: new, or the one it had, with the account that now serves a rerouted tree. */
  ghost function BoundRow(db: Db, root: Hash, account: Account): Root {
    if root !in db.roots then FRESH_ROOT
    else
      var row := db.roots[root];
      if Rerouted(db, root) && row.effective != Some(account) then
        row.(effective := Some(account), status := Some(if row.requested == Some(account) then Applied else Fallback))
      else row
  }

  ghost predicate Names(raw: seq<RawKey>, h: Hash) { exists x | x in NormalSet(raw) :: x.hash == h }

  /** What a bind leaves of the sticky row of a key it does not name. */
  ghost function OtherRoute(db: Db, root: Hash, account: Account, h: Hash): Route
    requires h in db.affinity
  {
    if Rerouted(db, root) && h in db.keys && db.keys[h].root == root then
      Route(db.affinity[h].kind, account, db.roots[root].generation)
    else db.affinity[h]
  }

  ghost predicate BindLeaves(db: Db, after: Db, raw: seq<RawKey>, account: Account, root: Hash) {
    && after.accounts == db.accounts
    && after.roots.Keys == db.roots.Keys + {root}
    && (forall r | r in db.roots && r != root :: after.roots[r] == db.roots[r])
    && after.roots[root] == BoundRow(db, root, account)
    && (forall x | x in NormalSet(raw) ::
          && x.hash in after.keys && after.keys[x.hash] == KeyRow(root, x.kind)
          && x.hash in after.affinity
          && after.affinity[x.hash] == Route(x.kind, account, after.roots[root].generation))
    && (forall h | !Names(raw, h) ::
          && (h in after.keys <==> h in db.keys) && (h in db.keys ==> after.keys[h] == db.keys[h])
          && (h in after.affinity <==> h in db.affinity)
          && (h in db.affinity ==> after.affinity[h] == OtherRoute(db, root, account, h)))
  }

  // ---------------------------------------------------------------- the name of a new tree

  predicate HasSession(keys: seq<RouteKey>) { exists k | k in keys :: k.kind == SESSION_ID }

  lemma {:induction false} PreferredSnoc(keys: seq<RouteKey>, k: RouteKey)
    requires keys != []
    ensures PreferredRoot(keys + [k])
         == if HasSession(keys) || k.kind != SESSION_ID then PreferredRoot(keys) else k.hash
    ensures !HasSession(keys) ==> PreferredRoot(keys) == keys[0].hash
  {
    assert keys == [keys[0]] + keys[1..] && (keys + [k])[1..] == keys[1..] + [k];
    assert HasSession(keys) <==> keys[0].kind == SESSION_ID || HasSession(keys[1..]);
    if |keys| > 1 {
      PreferredSnoc(keys[1..], k);
      assert HasSession(keys[1..] + [k]) <==> HasSession(keys[1..]) || k.kind == SESSION_ID;
    } else {
      assert keys[1..] + [k] == [k];
      assert HasSession([k]) <==> k.kind == SESSION_ID;
    }
  }

  ghost predicate RawSession(raw: seq<RawKey>) { exists j | 0 <= j < |raw| :: Normal(raw[j]).kind == SESSION_ID }

  lemma SessionKept(raw: seq<RawKey>)
    requires Collect(raw).Some?
    ensures HasSession(Collect(raw).value) <==> RawSession(raw)
  {
    CollectSound(raw);
    var keys := Collect(raw).value;
    if RawSession(raw) {
      var j :| 0 <= j < |raw| && Normal(raw[j]).kind == SESSION_ID;
      assert Normal(raw[j]) in NormalSet(raw);
      assert Normal(raw[j]) in ElementsOf(keys);
    }
    if HasSession(keys) {
      var k :| k in keys && k.kind == SESSION_ID;
      assert k in ElementsOf(keys);
    }
  }

  lemma CollectSnoc(raw: seq<RawKey>)
    requires raw != [] && Collect(raw).Some?
    ensures var init, k := raw[..|raw| - 1], Normal(raw[|raw| - 1]);
            && Collect(init).Some?
            && Collect(raw).value == if k in Collect(init).value then Collect(init).value else Collect(init).value + [k]
  {}

  lemma NamesLonger(raw: seq<RawKey>, i: nat)
    requires |raw| > 1 && i < |raw| - 1 && NamesTree(raw[..|raw| - 1], i)
    requires RawSession(raw[..|raw| - 1]) || Normal(raw[|raw| - 1]).kind != SESSION_ID
    ensures NamesTree(raw, i)
  {
    var init := raw[..|raw| - 1];
    hide Normal;
    assert forall j | 0 <= j < |init| :: raw[j] == init[j];
  }

  lemma NamesLast(raw: seq<RawKey>)
    requires raw != [] && !RawSession(raw[..|raw| - 1]) && Normal(raw[|raw| - 1]).kind == SESSION_ID
    ensures NamesTree(raw, |raw| - 1)
  {
    var init := raw[..|raw| - 1];
    hide Normal;
    assert forall j | 0 <= j < |init| :: raw[j] == init[j];
  }

  /** A new tree is named by the first session id of the list as it arrived, or by its first key. */
  lemma {:induction false} PreferredNames(raw: seq<RawKey>) returns (i: nat)
    requires raw != [] && Collect(raw).Some? && Collect(raw).value != []
    ensures i < |raw| && NamesTree(raw, i) && PreferredRoot(Collect(raw).value) == Normal(raw[i]).hash
  {
    var init, last := raw[..|raw| - 1], Normal(raw[|raw| - 1]);
    CollectSnoc(raw);
    var before := Collect(init).value;
    if init == [] {
      i := 0;
    } else {
      CollectSound(init);
      assert Normal(init[0]) in NormalSet(init) && Normal(init[0]) in ElementsOf(before);
      i := PreferredNames(init);
      SessionKept(init);
      assert init[i] == raw[i];
      hide Normal, Collect, NamesTree, RawSession, PreferredRoot, NormalSet;
      if last !in before {
        PreferredSnoc(before, last);
      }
      if RawSession(init) || last.kind != SESSION_ID {
        NamesLonger(raw, i);
      } else {
        NamesLast(raw);
        i := |raw| - 1;
      }
    }
  }

  // ---------------------------------------------------------------- both branches

  lemma TabledNames(raw: seq<RawKey>, input: map<Hash, Kind>, h: Hash)
    requires Tabled(raw, input)
    ensures h in input <==> Names(raw, h)
  {
    hide NormalSet;
  }

  /** The same in terms of the validated table. */
  ghost predicate RootsLeft(db: Db, after: Db, account: Account, root: Hash) {
    && after.accounts == db.accounts
    && after.roots.Keys == db.roots.Keys + {root}
    && (forall r | r in db.roots && r != root :: after.roots[r] == db.roots[r])
    && after.roots[root] == BoundRow(db, root, account)
  }

  ghost predicate KeysLeft(db: Db, after: Db, input: map<Hash, Kind>, root: Hash) {
    && (forall h | h in input :: h in after.keys && after.keys[h] == KeyRow(root, input[h]))
    && (forall h | h !in input ::
          (h in after.keys <==> h in db.keys) && (h in db.keys ==> after.keys[h] == db.keys[h]))
  }

  ghost predicate RoutesLeft(db: Db, after: Db, input: map<Hash, Kind>, account: Account, root: Hash, generation: nat) {
    && (forall h | h in input :: h in after.affinity && after.affinity[h] == Route(input[h], account, generation))
    && (forall h | h !in input ::
          && (h in after.affinity <==> h in db.affinity)
          && (h in db.affinity ==> after.affinity[h] == OtherRoute(db, root, account, h)))
  }

  ghost predicate TableLeaves(db: Db, after: Db, input: map<Hash, Kind>, account: Account, root: Hash) {
    && RootsLeft(db, after, account, root) && KeysLeft(db, after, input, root)
    && RoutesLeft(db, after, input, account, root, after.roots[root].generation)
  }

  lemma LeavesFromTable(db: Db, after: Db, raw: seq<RawKey>, input: map<Hash, Kind>, account: Account, root: Hash)
    requires Tabled(raw, input) && TableLeaves(db, after, input, account, root)
    ensures BindLeaves(db, after, raw, account, root)
  {
    forall h ensures h in input <==> Names(raw, h) {
      TabledNames(raw, input, h);
    }
    hide NormalSet, Names, OtherRoute, BoundRow;
  }

  lemma EpochRoute(db: Db, input: map<Hash, Kind>, account: Account, epoch: Epoch, h: Hash)
    requires Inv(db) && BindAtEpoch(db, input, account, epoch).1 == Ok(true)
    ensures var after := BindAtEpoch(db, input, account, epoch).0;
            && (h in input ==> h in after.affinity && after.affinity[h] == Route(input[h], account, epoch.generation))
            && (h !in input ==>
                  && (h in after.affinity <==> h in db.affinity)
                  && (h in db.affinity ==> after.affinity[h] == OtherRoute(db, epoch.root, account, h)))
  {
    if h in db.affinity && h in db.keys {
      assert Follows(db, h);
    }
    hide References, RowOk;
  }

  lemma EpochRoutes(db: Db, input: map<Hash, Kind>, account: Account, epoch: Epoch)
    requires Inv(db) && BindAtEpoch(db, input, account, epoch).1 == Ok(true)
    ensures RoutesLeft(db, BindAtEpoch(db, input, account, epoch).0, input, account, epoch.root, epoch.generation)
  {
    var after := BindAtEpoch(db, input, account, epoch).0;
    hide Inv, BindAtEpoch, OtherRoute;
    forall h
      ensures h in input ==> h in after.affinity && after.affinity[h] == Route(input[h], account, epoch.generation)
      ensures h !in input ==> (h in after.affinity <==> h in db.affinity)
      ensures h !in input && h in db.affinity ==> after.affinity[h] == OtherRoute(db, epoch.root, account, h)
    {
      EpochRoute(db, input, account, epoch, h);
    }
  }

  lemma EpochRootsAndKeys(db: Db, input: map<Hash, Kind>, account: Account, epoch: Epoch)
    requires BindAtEpoch(db, input, account, epoch).1 == Ok(true)
    ensures var after := BindAtEpoch(db, input, account, epoch).0;
            && RootsLeft(db, after, account, epoch.root) && KeysLeft(db, after, input, epoch.root)
            && after.roots[epoch.root].generation == epoch.generation
  {
    hide BindRoutes, FollowAccount, Foreign;
  }

  lemma EpochLeaves(db: Db, input: map<Hash, Kind>, account: Account, epoch: Epoch)
    requires Inv(db) && BindAtEpoch(db, input, account, epoch).1 == Ok(true)
    ensures TableLeaves(db, BindAtEpoch(db, input, account, epoch).0, input, account, epoch.root)
  {
    EpochRoutes(db, input, account, epoch);
    EpochRootsAndKeys(db, input, account, epoch);
    hide Inv, BindAtEpoch, RootsLeft, KeysLeft, RoutesLeft;
  }

  lemma OldestGeneration(db: Db, root: Hash, h: Hash)
    requires Inv(db) && h in db.affinity && (h in db.keys ==> db.keys[h].root == root)
    requires root in db.roots ==> db.roots[root] == FRESH_ROOT
    ensures db.affinity[h].generation == 0
  {
    hide Unsplit, References, RowOk;
  }

  lemma AttachedRoutes(db: Db, after: Db, root: Hash, input: map<Hash, Kind>, account: Account)
    requires Inv(db) && !Foreign(db, root, input) && (root in db.roots ==> db.roots[root] == FRESH_ROOT)
    requires after.affinity == LegacyRoutes(db.affinity, input, account)
    ensures RoutesLeft(db, after, input, account, root, 0)
  {
    forall h | h in input && h in db.affinity ensures db.affinity[h].generation == 0 {
      OldestGeneration(db, root, h);
    }
    hide Inv, Foreign;
  }

  lemma AttachedRootsAndKeys(db: Db, after: Db, root: Hash, input: map<Hash, Kind>, account: Account)
    requires root in db.roots ==> db.roots[root] == FRESH_ROOT
    requires after.accounts == db.accounts && after.roots == WithRoot(db, root).roots
    requires after.keys == ClaimKeys(db.keys, root, input)
    ensures RootsLeft(db, after, account, root) && KeysLeft(db, after, input, root) && after.roots[root].generation == 0
  {}

  lemma LegacyLeaves(db: Db, input: map<Hash, Kind>, preferred: Hash, account: Account)
    requires Inv(db) && preferred in input && BindLegacy(db, input, preferred, account).1 == Ok(true)
    ensures TableLeaves(db, BindLegacy(db, input, preferred, account).0, input, account,
        LegacyRoot(db.keys, input, preferred))
  {
    LegacyTarget(db, input, preferred, account);
    var after, root := BindLegacy(db, input, preferred, account).0, LegacyRoot(db.keys, input, preferred);
    assert after.affinity == LegacyRoutes(db.affinity, input, account) && after.keys == ClaimKeys(db.keys, root, input);
    assert after.accounts == db.accounts && after.roots == WithRoot(db, root).roots;
    hide Inv, BindLegacy, LegacyRoot, RootsLeft, KeysLeft, RoutesLeft, LegacyRoutes, ClaimKeys, WithRoot, Foreign;
    AttachedRoutes(db, after, root, input, account);
    AttachedRootsAndKeys(db, after, root, input, account);
  }

  lemma JoinsTabled(db: Db, raw: seq<RawKey>, input: map<Hash, Kind>, preferred: Hash, i: nat)
    requires Tabled(raw, input) && i < |raw| && NamesTree(raw, i) && preferred == Normal(raw[i]).hash
    requires |PriorRoots(db.keys, input)| <= 1
    ensures JoinsTree(db, raw, None, LegacyRoot(db.keys, input, preferred))
  {
    var mapped := PriorRoots(db.keys, input);
    AtMostOne(mapped);
    hide NormalSet, NamesTree;
    forall y | y in NormalSet(raw) && y.hash in db.keys ensures db.keys[y.hash].root in mapped {
      assert y.hash in input;
    }
    forall r | r in mapped ensures exists x | x in NormalSet(raw) :: x.hash in db.keys && db.keys[x.hash].root == r {
      var h :| h in input && h in db.keys && db.keys[h].root == r;
      assert RouteKey(h, input[h]) in NormalSet(raw);
    }
  }

  /**
    A bind that returns true leaves every key of its list in one tree, under the kind it came with and
    with a sticky row for the bound account at the tree's generation. It changes nothing else, but for a
    rerouted tree: all of that follows the account, and its root records the account.
   */
  lemma BindLeavesExactly(db: Db, raw: seq<RawKey>, account: Account, epoch: Option<Epoch>) returns (root: Hash)
    requires Inv(db) && raw != [] && Bind(db, raw, account, epoch).1 == Ok(true)
    ensures JoinsTree(db, raw, epoch, root) && BindLeaves(db, Bind(db, raw, account, epoch).0, raw, account, root)
    ensures epoch.Some? ==> Bind(db, raw, account, epoch).0.roots[root].generation == epoch.value.generation
  {
    TableOf(raw);
    BindUnfolds(db, raw, account, epoch);
    var keys := Validate(raw).value;
    var input, after := KeyTable(keys), Bind(db, raw, account, epoch).0;
    match epoch
    case Some(e) =>
      root := e.root;
      hide NormalSet, Inv, KeyTable, Validate, BindAtEpoch, BindLeaves, TableLeaves, Tabled, Bind;
      EpochLeaves(db, input, account, e);
      EpochRootsAndKeys(db, input, account, e);
      LeavesFromTable(db, after, raw, input, account, root);
    case None =>
      root := LegacyRoot(db.keys, input, PreferredRoot(keys));
      var i := PreferredNames(raw);
      PreferredIsKey(keys);
      assert |PriorRoots(db.keys, input)| <= 1;
      hide NormalSet, Inv, KeyTable, Validate, BindLegacy, BindLeaves, TableLeaves, Tabled, Bind, NamesTree, JoinsTree,
           LegacyRoot, PriorRoots, PreferredRoot;
      LegacyLeaves(db, input, PreferredRoot(keys), account);
      LeavesFromTable(db, after, raw, input, account, root);
      JoinsTabled(db, raw, input, PreferredRoot(keys), i);
  }
}
