/** A pending tree that outgrows its retry, built by one command and one bind. */
module RouteOversized {
  import opened Base
  import opened RouteKeys
  import opened Routes
  import opened RouteInvariant
  import opened RouteBinds
  import opened RouteRuns
  import opened RouteOutcomes
  import opened RoutePending

  // ---------------------------------------------------------------- many fingerprints

  const MANY: nat := 262_144

  function Digit(n: nat): char
    requires n < 8
  { '0' + n as char }

  /** The last `digits` octal digits of `n`. */
  function Octal(n: nat, digits: nat): (s: string)
    ensures |s| == digits
  { if digits == 0 then "" else Octal(n / 8, digits - 1) + [Digit(n % 8)] }

  function Power(digits: nat): nat { if digits == 0 then 1 else 8 * Power(digits - 1) }

  lemma {:induction false} OctalDiffers(m: nat, n: nat, digits: nat)
    requires m < Power(digits) && n < Power(digits) && m != n
    ensures Octal(m, digits) != Octal(n, digits)
  {
    if digits > 0 {
      var a, b := Octal(m, digits), Octal(n, digits);
      assert a[digits - 1] == Digit(m % 8) && b[digits - 1] == Digit(n % 8);
      assert a[..digits - 1] == Octal(m / 8, digits - 1) && b[..digits - 1] == Octal(n / 8, digits - 1);
      if m / 8 != n / 8 {
        OctalDiffers(m / 8, n / 8, digits - 1);
      }
    }
  }

  lemma {:induction false} OctalIsHex(n: nat, digits: nat)
    ensures forall i | 0 <= i < digits :: HexDigit(Octal(n, digits)[i])
  {
    if digits > 0 { OctalIsHex(n / 8, digits - 1); }
  }

  /** A valid fingerprint for each of many numbers. */
  function Fingerprint(n: nat): string
    requires n < MANY
  { seq(58, i => '0') + Octal(n, 6) }

  lemma FingerprintValid(n: nat)
    requires n < MANY
    ensures ValidHash(Fingerprint(n))
  {
    OctalIsHex(n, 6);
    hide Octal;
  }

  lemma FingerprintsDiffer(m: nat, n: nat)
    requires m < MANY && n < MANY && m != n
    ensures Fingerprint(m) != Fingerprint(n)
  {
    assert Power(6) == MANY;
    OctalDiffers(m, n, 6);
    hide Octal, Power;
    assert Fingerprint(m)[58..] == Octal(m, 6) && Fingerprint(n)[58..] == Octal(n, 6);
  }

  function SessionKey(n: nat): RawKey
    requires n < MANY
  { RawKey(Fingerprint(n), "session_id") }

  lemma SessionKeyNormal(n: nat)
    requires n < MANY
    ensures WellFormed(SessionKey(n)) && Normal(SessionKey(n)) == RouteKey(Hash(Fingerprint(n)), SESSION_ID)
  {
    FingerprintValid(n);
    assert Trim("session_id") == "session_id";
  }

  /** The keys numbered `from` up to, not including, `to`. */
  function SessionKeys(from: nat, to: nat): seq<RawKey>
    requires from <= to <= MANY
  { seq(to - from, i requires 0 <= i < to - from => SessionKey(from + i)) }

  function FingerprintSet(from: nat, to: nat): set<Hash>
    requires to <= MANY
  { set n: nat | from <= n < to :: Hash(Fingerprint(n)) }

  lemma FingerprintNext(from: nat, to: nat)
    requires from <= to < MANY
    ensures FingerprintSet(from, to + 1) == FingerprintSet(from, to) + {Hash(Fingerprint(to))}
  {
    hide Fingerprint;
  }

  /** A fingerprint is in the set of its own range only. */
  lemma FingerprintIn(from: nat, to: nat, n: nat)
    requires to <= MANY && n < MANY
    ensures Hash(Fingerprint(n)) in FingerprintSet(from, to) <==> from <= n < to
  {
    hide Fingerprint;
    forall m: nat | from <= m < to && m != n ensures Fingerprint(m) != Fingerprint(n) {
      FingerprintsDiffer(m, n);
    }
  }

  lemma {:induction false} FingerprintCount(from: nat, to: nat)
    requires from <= to <= MANY
    ensures |FingerprintSet(from, to)| == to - from
  {
    if from < to {
      FingerprintCount(from, to - 1);
      FingerprintNext(from, to - 1);
      FingerprintIn(from, to - 1, to - 1);
      hide FingerprintSet, Fingerprint;
    } else {
      assert FingerprintSet(from, to) == {};
    }
  }

  lemma SessionKeysNormal(from: nat, to: nat)
    requires from <= to <= MANY
    ensures forall i | 0 <= i < to - from :: WellFormed(SessionKeys(from, to)[i])
    ensures forall k | k in NormalSet(SessionKeys(from, to)) ::
              k.kind == SESSION_ID && k.hash in FingerprintSet(from, to)
    ensures forall h | h in FingerprintSet(from, to) :: RouteKey(h, SESSION_ID) in NormalSet(SessionKeys(from, to))
  {
    var raw := SessionKeys(from, to);
    forall n: nat | from <= n < to
      ensures raw[n - from] == SessionKey(n) && WellFormed(SessionKey(n))
      ensures Normal(SessionKey(n)) == RouteKey(Hash(Fingerprint(n)), SESSION_ID)
    {
      assert raw[n - from] == SessionKey(from + (n - from));
      SessionKeyNormal(n);
    }
    forall i | 0 <= i < to - from
      ensures WellFormed(raw[i]) && Normal(raw[i]).kind == SESSION_ID && Normal(raw[i]).hash in FingerprintSet(from, to)
    {
      assert raw[i] == SessionKey(from + i);
      SessionKeyNormal(from + i);
      FingerprintIn(from, to, from + i);
    }
    hide Fingerprint, WellFormed, Normal, SessionKey;
    forall h | h in FingerprintSet(from, to) ensures RouteKey(h, SESSION_ID) in NormalSet(raw) {
      var n: nat :| from <= n < to && h == Hash(Fingerprint(n));
      assert Normal(raw[n - from]) in NormalSet(raw);
    }
  }

  /** These keys make a valid list with that many fingerprints. */
  lemma SessionKeysValid(from: nat, to: nat)
    requires from <= to <= MANY && to - from <= MAX_ROUTE_KEYS
    ensures Validate(SessionKeys(from, to)).Some? && Distinct(Validate(SessionKeys(from, to)).value)
    ensures KeyTable(Validate(SessionKeys(from, to)).value).Keys == FingerprintSet(from, to)
  {
    var raw := SessionKeys(from, to);
    assert |raw| == to - from;
    hide Fingerprint, FingerprintSet, Validate, WellFormed, NormalSet, SessionKeys;
    SessionKeysNormal(from, to);
    ValidationExact(raw);
    var keys := Validate(raw).value;
    assert ElementsOf(keys) == NormalSet(raw);
    forall h | h in FingerprintSet(from, to) ensures h in HashesOf(keys) {
      assert RouteKey(h, SESSION_ID) in keys;
    }
    forall h | h in HashesOf(keys) ensures h in FingerprintSet(from, to) {
      var k :| k in keys && k.hash == h;
      assert k in NormalSet(raw);
    }
  }

  // ---------------------------------------------------------------- a new tree

  function RootAt(from: nat): Hash
    requires from < MANY
  { Hash(Fingerprint(from)) }

  /** A rebalance of so many new keys while no account is eligible, for a session with a live connection. */
  function NewTree(from: nat, count: nat, account: Account): Step
    requires from < MANY && from + count <= MANY
  {
    Command(Request(Fingerprint(from), SessionKeys(from, from + count), Rebalance, None, false),
        Env({}, None, {account}))
  }

  /** The next response of that connection adds one key. */
  function NextResponse(from: nat, count: nat, account: Account): Step
    requires from < MANY && from + count < MANY
  {
    BindStep([SessionKey(from + count)], account, Some(Epoch(RootAt(from), 0)))
  }

  ghost predicate Unclaimed(db: Db, from: nat, count: nat)
    requires from + count <= MANY
  {
    db.keys.Keys !! FingerprintSet(from, from + count)
  }

  lemma NewTreeChecked(from: nat, count: nat, account: Account)
    requires 0 < count <= MAX_ROUTE_KEYS && from + count <= MANY
    ensures var checked := Checked(NewTree(from, count, account).request);
            checked.Some? && checked.value.Keys == FingerprintSet(from, from + count) && RootAt(from) in checked.value
  {
    hide Fingerprint, Validate, SessionKeys, FingerprintSet;
    SessionKeysValid(from, from + count);
    FingerprintValid(from);
    FingerprintIn(from, from + count, from);
  }

  /** What is read about keys that no tree has: no root, and sticky rows of generation zero at most. */
  lemma NewKeysRead(db: Db, root: Hash, input: map<Hash, Kind>, account: Account)
    requires Inv(db) && root in input && input.Keys !! db.keys.Keys && root !in db.roots
    ensures var s := Read(db, false, root, input, None, Env({}, None, {account}));
            && s.prior == {} && s.keys == input && s.targetKnown && Newest(s) == 0
  {
    var s := Read(db, false, root, input, None, Env({}, None, {account}));
    assert s.prior == {};
    assert KeysUnder(db.keys, {root}) == {} && {} + {root} == {root};
    assert s.keys == input;
    assert RootGenerations(db.roots, {root}) == {};
    hide References, RowOk, Unsplit;
    assert forall g | g in s.generations :: g == 0;
  }

  /** What a command that finds no account decides about them. */
  lemma NewKeysDecision(db: Db, root: Hash, input: map<Hash, Kind>, account: Account)
    requires Inv(db) && root in input && input.Keys !! db.keys.Keys
    ensures var d := Decide(db, root in db.roots, root, input, None, Env({}, None, {account}));
            && root !in db.roots && d.Ok?
            && d.value.effective.None? && d.value.generation == 0 && d.value.response.status == Pending
            && d.value.keys == input && d.value.roots == {root}
  {
    assert root !in db.roots;
    NewKeysRead(db, root, input, account);
    hide Read, Inv, Newest;
    assert account in Env({}, None, {account}).live;
    assert {} + {root} == {root};
  }

  lemma NewTreeDecision(db: Db, from: nat, count: nat, account: Account)
    requires Inv(db) && 0 < count <= MAX_ROUTE_KEYS && from + count <= MANY && Unclaimed(db, from, count)
    ensures var d := Committed(db, NewTree(from, count, account));
            && RootAt(from) !in db.roots && d.Some?
            && d.value.effective.None? && d.value.generation == 0 && d.value.response.status == Pending
            && d.value.keys.Keys == FingerprintSet(from, from + count) && d.value.roots == {RootAt(from)}
  {
    NewTreeChecked(from, count, account);
    hide Fingerprint, Checked, FingerprintSet, SessionKeys, Decide, Inv;
    NewKeysDecision(db, RootAt(from), Checked(NewTree(from, count, account).request).value, account);
  }

  /** What it leaves behind. */
  lemma CommitNewTree(db: Db, root: Hash, d: Decision)
    requires Rooted(db) && root !in db.roots && d.roots == {root} && d.effective.None? && db.keys.Keys !! d.keys.Keys
    ensures var after := Commit(db, root, Rebalance, None, d);
            && after.accounts == db.accounts
            && after.roots == db.roots[root := Root(d.generation, Some(Rebalance), None, None, Some(d.response.status))]
            && after.keys.Keys == db.keys.Keys + d.keys.Keys && TreeTable(after, root).Keys == d.keys.Keys
  {}

  /** The new tree of these fingerprints waits beside whatever was there. */
  ghost predicate Planted(before: Db, after: Db, root: Hash, fingerprints: set<Hash>) {
    && Inv(after) && after.accounts == before.accounts
    && root !in before.roots
    && after.roots == before.roots[root := Root(0, Some(Rebalance), None, None, Some(Pending))]
    && after.keys.Keys == before.keys.Keys + fingerprints
    && |TreeTable(after, root)| == |fingerprints|
  }

  lemma NewTreeIsCommand(db: Db, from: nat, count: nat, account: Account)
    requires from < MANY && from + count <= MANY
    ensures var step := NewTree(from, count, account);
            && step.Command? && StepOk(db, step) && Hash(step.request.root) == RootAt(from)
            && step.request.action == Rebalance && step.request.target == None
  {
    hide Fingerprint, SessionKeys;
  }

  lemma PlantedBy(db: Db, after: Db, root: Hash, fingerprints: set<Hash>, d: Decision)
    requires Inv(db) && db.keys.Keys !! fingerprints && Inv(after)
    requires after == Commit(db, root, Rebalance, None, d) && root !in db.roots
    requires d.effective.None? && d.generation == 0 && d.response.status == Pending
    requires d.keys.Keys == fingerprints && d.roots == {root}
    ensures Planted(db, after, root, fingerprints)
  {
    assert Rooted(db);
    hide Inv, Commit, Rooted, TreeTable;
    CommitNewTree(db, root, d);
    assert |TreeTable(after, root)| == |TreeTable(after, root).Keys|;
  }

  lemma TreePlanted(db: Db, from: nat, count: nat, account: Account)
    requires Inv(db) && 0 < count <= MAX_ROUTE_KEYS && from + count <= MANY && Unclaimed(db, from, count)
    ensures Planted(db, Next(db, NewTree(from, count, account)), RootAt(from), FingerprintSet(from, from + count))
  {
    assert db.keys.Keys !! FingerprintSet(from, from + count);
    hide *;
    var step := NewTree(from, count, account);
    NewTreeDecision(db, from, count, account);
    NewTreeIsCommand(db, from, count, account);
    StepKeepsInv(db, step);
    CommittedStep(db, step);
    PlantedBy(db, Next(db, step), RootAt(from), FingerprintSet(from, from + count), Committed(db, step).value);
  }

  lemma PlantedMore(before: Db, full: Db, after: Db, root: Hash, fingerprints: set<Hash>, key: Hash)
    requires Planted(before, full, root, fingerprints) && Inv(after) && key !in fingerprints
    requires after.accounts == full.accounts && after.roots == full.roots
    requires after.keys.Keys == full.keys.Keys + {key} && |TreeTable(after, root)| == |TreeTable(full, root)| + 1
    ensures Planted(before, after, root, fingerprints + {key})
  {
    hide TreeTable, Inv;
  }

  lemma PlantedCurrent(before: Db, full: Db, root: Hash, fingerprints: set<Hash>, key: Hash)
    requires Planted(before, full, root, fingerprints) && key !in fingerprints && key !in before.keys
    ensures Inv(full) && full.accounts == before.accounts && key !in full.keys
    ensures Current(full, Epoch(root, 0)) && full.roots[root].action == Some(Rebalance)
  {
    hide TreeTable, Inv;
  }

  lemma KeyBinds(before: Db, full: Db, root: Hash, fingerprints: set<Hash>, key: RawKey, account: Account)
    requires Planted(before, full, root, fingerprints) && WellFormed(key) && account in before.accounts
    requires Hash(key.hash) !in fingerprints && Hash(key.hash) !in before.keys
    ensures Planted(before, Next(full, BindStep([key], account, Some(Epoch(root, 0)))), root,
        fingerprints + {Hash(key.hash)})
  {
    var step := BindStep([key], account, Some(Epoch(root, 0)));
    assert StepOk(full, step);
    PlantedCurrent(before, full, root, fingerprints, Hash(key.hash));
    hide Planted, Inv, WellFormed, Grows, Bind, TreeTable, Current, StepOk;
    StepKeepsInv(full, step);
    AliasJoins(full, Epoch(root, 0), key, account);
    PlantedMore(before, full, Next(full, step), root, fingerprints, Hash(key.hash));
  }

  lemma ResponseKey(from: nat, count: nat, account: Account)
    requires from + count < MANY && from < MANY
    ensures var key := SessionKey(from + count);
            && Hash(key.hash) == Hash(Fingerprint(from + count))
            && NextResponse(from, count, account) == BindStep([key], account, Some(Epoch(RootAt(from), 0)))
  {
    hide Fingerprint;
  }

  lemma UnclaimedKey(db: Db, from: nat, count: nat)
    requires from + count < MANY && Unclaimed(db, from, count + 1)
    ensures Hash(Fingerprint(from + count)) !in db.keys
  {
    FingerprintIn(from, from + count + 1, from + count);
    hide FingerprintSet, Fingerprint;
  }

  lemma ResponseGrows(before: Db, full: Db, from: nat, count: nat, account: Account)
    requires from + count < MANY && from < MANY
    requires Planted(before, full, RootAt(from), FingerprintSet(from, from + count))
    requires account in before.accounts && Unclaimed(before, from, count + 1)
    ensures Planted(before, Next(full, NextResponse(from, count, account)), RootAt(from),
        FingerprintSet(from, from + count + 1))
  {
    hide *;
    ResponseKey(from, count, account);
    UnclaimedKey(before, from, count);
    SessionKeyNormal(from + count);
    FingerprintIn(from, from + count, from + count);
    FingerprintNext(from, from + count);
    KeyBinds(before, full, RootAt(from), FingerprintSet(from, from + count), SessionKey(from + count), account);
  }

  /** One command and one response plant a tree and make it one key larger. */
  lemma Outgrown(db: Db, from: nat, count: nat, account: Account)
    requires Inv(db) && from < MANY && from + count < MANY && 0 < count <= MAX_ROUTE_KEYS && account in db.accounts
    requires Unclaimed(db, from, count + 1)
    ensures var full := Next(db, NewTree(from, count, account));
            && Planted(db, full, RootAt(from), FingerprintSet(from, from + count))
            && Planted(db, Next(full, NextResponse(from, count, account)), RootAt(from),
                FingerprintSet(from, from + count + 1))
  {
    hide *;
    FewerUnclaimed(db, from, count);
    TreePlanted(db, from, count, account);
    ResponseGrows(db, Next(db, NewTree(from, count, account)), from, count, account);
  }

  lemma FewerUnclaimed(db: Db, from: nat, count: nat)
    requires from + count < MANY && Unclaimed(db, from, count + 1)
    ensures Unclaimed(db, from, count)
  {
    FingerprintNext(from, from + count);
    hide FingerprintSet, Fingerprint;
  }

  // ---------------------------------------------------------------- the run

  lemma RefusedForAll(db: Db, root: Hash)
    requires Inv(db) && Stored(db) && |TreeTable(db, root)| > MAX_ROUTE_KEYS
    ensures forall request, env | IsRetry(db, root, request) :: Apply(db, request, env) == (db, Err(BadRequest))
  {
    hide *;
    forall request, env | IsRetry(db, root, request) ensures Apply(db, request, env) == (db, Err(BadRequest)) {
      OversizedPendingIsStuck(db, root, request, env);
    }
  }

  lemma PlantedWaits(before: Db, after: Db, root: Hash, fingerprints: set<Hash>)
    requires Planted(before, after, root, fingerprints)
    ensures Inv(after) && WaitsAt(after, root) && |TreeTable(after, root)| == |fingerprints|
  {
    assert after.keys[root].root == root;
    hide TreeTable;
  }

  lemma InitialUnclaimed(db: Db, from: nat, count: nat)
    requires Initial(db) && from + count <= MANY
    ensures Unclaimed(db, from, count)
  {}

  lemma OutgrownFromNothing(before: Db, from: nat, count: nat, account: Account)
    requires Initial(before) && account in before.accounts
    requires from < MANY && from + count < MANY && 0 < count <= MAX_ROUTE_KEYS
    ensures var full := Next(before, NewTree(from, count, account));
            var more := Next(full, NextResponse(from, count, account));
            && WaitsAt(full, RootAt(from)) && |TreeTable(full, RootAt(from))| == count
            && WaitsAt(more, RootAt(from)) && |TreeTable(more, RootAt(from))| == count + 1
  {
    hide *;
    InitialInv(before);
    InitialUnclaimed(before, from, count + 1);
    Outgrown(before, from, count, account);
    FingerprintCount(from, from + count);
    FingerprintCount(from, from + count + 1);
    var full := Next(before, NewTree(from, count, account));
    var more := Next(full, NextResponse(from, count, account));
    PlantedWaits(before, full, RootAt(from), FingerprintSet(from, from + count));
    PlantedWaits(before, more, RootAt(from), FingerprintSet(from, from + count + 1));
  }

  /**
    The limit can be crossed: a pending tree of 500 keys is built by one command on an empty
    database, the next response on its connection adds a key, the tree is pending still, and
    from then on its retry is refused whatever accounts are eligible.
   */
  lemma PendingTreeOutgrowsRetry(states: seq<Db>, steps: seq<Step>, from: nat, account: Account)
    requires IsRun(states, steps) && Initial(states[0]) && account in states[0].accounts
    requires from < MANY && from + MAX_ROUTE_KEYS < MANY
    requires steps == [NewTree(from, MAX_ROUTE_KEYS, account), NextResponse(from, MAX_ROUTE_KEYS, account)]
    ensures WaitsAt(states[1], RootAt(from)) && |TreeTable(states[1], RootAt(from))| == MAX_ROUTE_KEYS
    ensures WaitsAt(states[2], RootAt(from)) && |TreeTable(states[2], RootAt(from))| == MAX_ROUTE_KEYS + 1
    ensures Inv(states[2]) && forall request, env | IsRetry(states[2], RootAt(from), request) ::
              Apply(states[2], request, env) == (states[2], Err(BadRequest))
  {
    assert StepAt(states, steps, 0) && StepAt(states, steps, 1);
    RunKeepsStored(states, steps, 2);
    hide Inv, Initial, Stored, WaitsAt, TreeTable, NewTree, NextResponse, Next, Apply, IsRetry, StepOk, RootAt, Grows;
    OutgrownFromNothing(states[0], from, MAX_ROUTE_KEYS, account);
    RefusedForAll(states[2], RootAt(from));
  }
}
