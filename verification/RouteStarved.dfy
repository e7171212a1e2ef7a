/** A run from an empty database that ends with a hundred oversized trees in front of a small one. */
module RouteStarved {
  import opened Base
  import opened RouteKeys
  import opened Routes
  import opened RouteInvariant
  import opened RouteBinds
  import opened RouteRuns
  import opened RouteOutcomes
  import opened RoutePending
  import opened RouteOversized
  import opened RouteQueue

  /** The number of the first key of tree `t`. */
  function First(t: nat): (n: nat)
    ensures t <= LIST_LIMIT ==> n + MAX_ROUTE_KEYS + 1 < MANY
  { 512 * t }

  function RootOf(t: nat): Hash
    requires t <= LIST_LIMIT
  { RootAt(First(t)) }

  /** Tree `t` is made by a command of 500 keys and a response that adds one. */
  function Plant(t: nat, account: Account): Step
    requires t <= LIST_LIMIT
  { NewTree(First(t), MAX_ROUTE_KEYS, account) }

  function Overgrow(t: nat, account: Account): Step
    requires t <= LIST_LIMIT
  { NextResponse(First(t), MAX_ROUTE_KEYS, account) }

  /** The command of one key that comes after them. */
  function PlantSmall(account: Account): Step { NewTree(First(LIST_LIMIT), 1, account) }

  // ---------------------------------------------------------------- one tree more

  ghost predicate Stuck(c: Stamped, r: Hash, time: int) { Pends(c, r) && Oversized(c, r) && c.updated[r] <= time }

  ghost predicate Built(c: Stamped, t: nat, account: Account, time: int)
    requires t <= LIST_LIMIT
  {
    && Inv(c.db) && Keyed(c) && account in c.db.accounts
    && c.db.keys.Keys <= FingerprintSet(0, First(t))
    && forall u: nat | u < t :: Stuck(c, RootOf(u), time)
  }

  lemma RootStays(c: Stamped, step: Step, now: int, r: Hash, time: int)
    requires Inv(c.db) && StepOk(c.db, step) && Keyed(c) && Stuck(c, r, time)
    requires r !in Restamped(c.db, step) && r in Next(c.db, step).roots && Next(c.db, step).roots[r] == c.db.roots[r]
    ensures Stuck(Tick(c, step, now), r, time)
  {
    TreeOnlyGrows(c.db, step, r);
    hide Next, Restamped, Inv, TreeTable, StepOk;
  }

  lemma TickIs(c: Stamped, step: Step, now: int)
    requires Keyed(c)
    ensures var after := Tick(c, step, now);
            && after.db == Next(c.db, step) && Keyed(after)
            && (forall r | r in after.db.roots ::
                  after.updated[r] == if r in c.db.roots && r !in Restamped(c.db, step) then c.updated[r] else now)
  {
    hide Next, Restamped;
  }

  lemma StuckRoot(c: Stamped, r: Hash, time: int)
    requires Stuck(c, r, time)
    ensures r in c.db.roots
  {
    hide Oversized;
  }

  lemma PlantedRoots(before: Db, after: Db, root: Hash, fingerprints: set<Hash>, r: Hash)
    requires Planted(before, after, root, fingerprints)
    ensures root in after.roots && root !in before.roots && after.roots[root].status == Some(Pending)
    ensures r in before.roots ==> r != root && r in after.roots && after.roots[r] == before.roots[r]
  {
    hide Inv, TreeTable;
  }

  lemma PendsAt(c: Stamped, r: Hash)
    requires Keyed(c) && r in c.db.roots && c.db.roots[r].status == Some(Pending)
    ensures Pends(c, r)
  {}

  /** A step that stamps nothing but a root it adds. */
  lemma PlantedTick(c: Stamped, step: Step, now: int, root: Hash, fingerprints: set<Hash>, r: Hash, time: int)
    requires Inv(c.db) && StepOk(c.db, step) && Keyed(c) && Restamped(c.db, step) == {root}
    requires Planted(c.db, Next(c.db, step), root, fingerprints)
    ensures Pends(Tick(c, step, now), root) && root in Tick(c, step, now).updated
    ensures Tick(c, step, now).updated[root] == now
    ensures Stuck(c, r, time) ==> Stuck(Tick(c, step, now), r, time)
  {
    hide *;
    TickIs(c, step, now);
    PlantedRoots(c.db, Next(c.db, step), root, fingerprints, r);
    PendsAt(Tick(c, step, now), root);
    KeyedRoot(Tick(c, step, now), root);
    if Stuck(c, r, time) {
      StuckRoot(c, r, time);
      RootStays(c, step, now, r, time);
    }
  }

  lemma KeyedRoot(c: Stamped, r: Hash)
    requires Keyed(c) && r in c.db.roots
    ensures r in c.updated
  {}

  lemma QuietStamps(c: Stamped, step: Step, now: int)
    requires Keyed(c) && Restamped(c.db, step) == {} && Next(c.db, step).roots == c.db.roots
    ensures Tick(c, step, now).updated == c.updated
  {
    hide Next, Restamped;
  }

  lemma QuietTick(c: Stamped, step: Step, now: int, r: Hash, time: int)
    requires Inv(c.db) && StepOk(c.db, step) && Keyed(c) && Restamped(c.db, step) == {}
    requires Next(c.db, step).roots == c.db.roots
    ensures Tick(c, step, now).updated == c.updated
    ensures Stuck(c, r, time) ==> Stuck(Tick(c, step, now), r, time)
  {
    hide *;
    QuietStamps(c, step, now);
    if Stuck(c, r, time) {
      StuckRoot(c, r, time);
      RootStays(c, step, now, r, time);
    }
  }

  lemma PlantStamps(db: Db, from: nat, count: nat, account: Account)
    requires Inv(db) && from < MANY && 0 < count <= MAX_ROUTE_KEYS && from + count <= MANY && Unclaimed(db, from, count)
    ensures var step := NewTree(from, count, account);
            && StepOk(db, step) && Restamped(db, step) == {RootAt(from)}
            && Planted(db, Next(db, step), RootAt(from), FingerprintSet(from, from + count))
  {
    hide *;
    TreePlanted(db, from, count, account);
    NewTreeDecision(db, from, count, account);
    NewTreeIsCommand(db, from, count, account);
    CommandStamps(db, NewTree(from, count, account), RootAt(from));
  }

  lemma BindStamps(db: Db, step: Step)
    requires step.BindStep? && Next(db, step).roots == db.roots
    ensures Restamped(db, step) == {}
  {
    hide Next;
  }

  lemma SameRoots(before: Db, full: Db, more: Db, root: Hash, few: set<Hash>, many: set<Hash>)
    requires Planted(before, full, root, few) && Planted(before, more, root, many)
    ensures more.roots == full.roots && more.accounts == full.accounts && Inv(full) && Inv(more)
    ensures full.keys.Keys == before.keys.Keys + few && more.keys.Keys == before.keys.Keys + many
    ensures |TreeTable(more, root)| == |many|
  {
    hide Inv, TreeTable;
  }

  lemma ResponseStamps(before: Db, full: Db, from: nat, count: nat, account: Account)
    requires from < MANY && from + count < MANY && account in before.accounts && Unclaimed(before, from, count + 1)
    requires Planted(before, full, RootAt(from), FingerprintSet(from, from + count))
    ensures var step := NextResponse(from, count, account);
            && StepOk(full, step) && Restamped(full, step) == {} && Next(full, step).roots == full.roots
            && Planted(before, Next(full, step), RootAt(from), FingerprintSet(from, from + count + 1))
  {
    ResponseIsBind(full, from, count, account);
    hide *;
    var step := NextResponse(from, count, account);
    ResponseGrows(before, full, from, count, account);
    SameRoots(before, full, Next(full, step), RootAt(from), FingerprintSet(from, from + count),
              FingerprintSet(from, from + count + 1));
    BindStamps(full, step);
  }

  lemma ResponseIsBind(db: Db, from: nat, count: nat, account: Account)
    requires from < MANY && from + count < MANY
    ensures NextResponse(from, count, account).BindStep? && StepOk(db, NextResponse(from, count, account))
  {
    hide SessionKey, RootAt;
  }

  lemma FreshRange(db: Db, t: nat)
    requires t <= LIST_LIMIT && db.keys.Keys <= FingerprintSet(0, First(t))
    ensures Unclaimed(db, First(t), MAX_ROUTE_KEYS + 1)
    ensures FingerprintSet(0, First(t)) + FingerprintSet(First(t), First(t) + MAX_ROUTE_KEYS + 1)
            <= FingerprintSet(0, First(t + 1))
  {
    hide Fingerprint;
    var range := FingerprintSet(First(t), First(t) + MAX_ROUTE_KEYS + 1);
    forall h | h in range ensures h !in FingerprintSet(0, First(t)) {
      var n: nat :| First(t) <= n < First(t) + MAX_ROUTE_KEYS + 1 && h == Hash(Fingerprint(n));
      FingerprintIn(0, First(t), n);
    }
  }

  lemma BuiltParts(c: Stamped, t: nat, account: Account, time: int)
    requires t < LIST_LIMIT && Built(c, t, account, time)
    ensures Inv(c.db) && Keyed(c) && account in c.db.accounts && c.db.keys.Keys <= FingerprintSet(0, First(t))
    ensures 0 < MAX_ROUTE_KEYS && First(t) + MAX_ROUTE_KEYS + 1 < MANY
    ensures Plant(t, account) == NewTree(First(t), MAX_ROUTE_KEYS, account)
    ensures Overgrow(t, account) == NextResponse(First(t), MAX_ROUTE_KEYS, account)
    ensures RootOf(t) == RootAt(First(t))
  {
    hide Inv, NewTree, NextResponse, RootAt, FingerprintSet;
  }

  lemma BuiltStuck(c: Stamped, t: nat, account: Account, time: int, u: nat)
    requires t <= LIST_LIMIT && Built(c, t, account, time) && u < t
    ensures Stuck(c, RootOf(u), time)
  {}

  lemma StuckLater(c: Stamped, r: Hash, time: int, now: int)
    requires Stuck(c, r, time) && time <= now
    ensures Stuck(c, r, now)
  {
    hide Oversized;
  }

  /** The tree just built: its root as the command stamped it, 501 keys after the response. */
  lemma NewlyStuck(full: Stamped, more: Stamped, root: Hash, now: int)
    requires Pends(full, root) && full.updated[root] == now
    requires more.updated == full.updated && more.db.roots == full.db.roots
    requires |TreeTable(more.db, root)| > MAX_ROUTE_KEYS
    ensures Stuck(more, root, now)
  {
    hide TreeTable;
  }

  lemma BuiltFromParts(c: Stamped, t: nat, account: Account, now: int)
    requires t < LIST_LIMIT && Inv(c.db) && Keyed(c) && account in c.db.accounts
    requires c.db.keys.Keys <= FingerprintSet(0, First(t + 1))
    requires forall u: nat | u <= t :: Stuck(c, RootOf(u), now)
    ensures Built(c, t + 1, account, now)
  {
    hide Inv, Stuck, FingerprintSet, First, RootOf;
  }

  /** What the command of tree `t` leaves. */
  ghost predicate Commanded(c: Stamped, c1: Stamped, t: nat, account: Account)
    requires t < LIST_LIMIT
  {
    && StepOk(c.db, Plant(t, account)) && c1.db == Next(c.db, Plant(t, account)) && Keyed(c1) && Inv(c1.db)
    && Restamped(c.db, Plant(t, account)) == {RootOf(t)}
    && Planted(c.db, c1.db, RootOf(t), FingerprintSet(First(t), First(t) + MAX_ROUTE_KEYS))
  }

  /** What the response after it leaves. */
  ghost predicate Responded(c: Stamped, c1: Stamped, c2: Stamped, t: nat, account: Account)
    requires t < LIST_LIMIT
  {
    && StepOk(c1.db, Overgrow(t, account)) && c2.db == Next(c1.db, Overgrow(t, account)) && Keyed(c2) && Inv(c2.db)
    && Restamped(c1.db, Overgrow(t, account)) == {} && c2.db.roots == c1.db.roots
    && Planted(c.db, c2.db, RootOf(t), FingerprintSet(First(t), First(t) + MAX_ROUTE_KEYS + 1))
  }

  lemma CommandedFromParts(c: Stamped, c1: Stamped, t: nat, account: Account)
    requires t < LIST_LIMIT
    requires StepOk(c.db, Plant(t, account)) && c1.db == Next(c.db, Plant(t, account)) && Keyed(c1) && Inv(c1.db)
    requires Restamped(c.db, Plant(t, account)) == {RootOf(t)}
    requires Planted(c.db, c1.db, RootOf(t), FingerprintSet(First(t), First(t) + MAX_ROUTE_KEYS))
    ensures Commanded(c, c1, t, account)
  {}

  lemma CommandedParts(c: Stamped, c1: Stamped, t: nat, account: Account)
    requires t < LIST_LIMIT && Commanded(c, c1, t, account)
    ensures StepOk(c.db, Plant(t, account)) && c1.db == Next(c.db, Plant(t, account)) && Keyed(c1) && Inv(c1.db)
    ensures Restamped(c.db, Plant(t, account)) == {RootOf(t)} && First(t) + MAX_ROUTE_KEYS + 1 < MANY
    ensures Planted(c.db, c1.db, RootOf(t), FingerprintSet(First(t), First(t) + MAX_ROUTE_KEYS))
  {
    hide Inv, Keyed, StepOk, Plant, Next, Restamped, Planted;
  }

  lemma RespondedFromParts(c: Stamped, c1: Stamped, c2: Stamped, t: nat, account: Account)
    requires t < LIST_LIMIT
    requires StepOk(c1.db, Overgrow(t, account)) && c2.db == Next(c1.db, Overgrow(t, account)) && Keyed(c2)
        && Inv(c2.db)
    requires Restamped(c1.db, Overgrow(t, account)) == {} && c2.db.roots == c1.db.roots
    requires Planted(c.db, c2.db, RootOf(t), FingerprintSet(First(t), First(t) + MAX_ROUTE_KEYS + 1))
    ensures Responded(c, c1, c2, t, account)
  {}

  lemma RespondedParts(c: Stamped, c1: Stamped, c2: Stamped, t: nat, account: Account)
    requires t < LIST_LIMIT && Responded(c, c1, c2, t, account)
    ensures StepOk(c1.db, Overgrow(t, account)) && c2.db == Next(c1.db, Overgrow(t, account)) && Keyed(c2) && Inv(c2.db)
    ensures Restamped(c1.db, Overgrow(t, account)) == {} && c2.db.roots == c1.db.roots
    ensures First(t) + MAX_ROUTE_KEYS + 1 < MANY
    ensures Planted(c.db, c2.db, RootOf(t), FingerprintSet(First(t), First(t) + MAX_ROUTE_KEYS + 1))
  {
    hide Inv, Keyed, StepOk, Overgrow, Next, Restamped, Planted;
  }

  lemma PlantedSound(before: Db, after: Db, root: Hash, fingerprints: set<Hash>)
    requires Planted(before, after, root, fingerprints)
    ensures Inv(after) && after.accounts == before.accounts && after.keys.Keys == before.keys.Keys + fingerprints
    ensures |TreeTable(after, root)| == |fingerprints|
  {
    hide Inv, TreeTable;
  }

  lemma CommandStep(c: Stamped, t: nat, account: Account, time: int, now: int)
    requires t < LIST_LIMIT && Built(c, t, account, time)
    ensures Commanded(c, Tick(c, Plant(t, account), now), t, account)
  {
    hide *;
    var c1 := Tick(c, Plant(t, account), now);
    BuiltParts(c, t, account, time);
    FreshRange(c.db, t);
    FewerUnclaimed(c.db, First(t), MAX_ROUTE_KEYS);
    PlantStamps(c.db, First(t), MAX_ROUTE_KEYS, account);
    TickIs(c, Plant(t, account), now);
    PlantedSound(c.db, c1.db, RootOf(t), FingerprintSet(First(t), First(t) + MAX_ROUTE_KEYS));
    CommandedFromParts(c, c1, t, account);
  }

  lemma ResponseStep(c: Stamped, c1: Stamped, t: nat, account: Account, time: int, later: int)
    requires t < LIST_LIMIT && Built(c, t, account, time) && Commanded(c, c1, t, account)
    ensures Responded(c, c1, Tick(c1, Overgrow(t, account), later), t, account)
  {
    hide *;
    var c2 := Tick(c1, Overgrow(t, account), later);
    BuiltParts(c, t, account, time);
    CommandedParts(c, c1, t, account);
    FreshRange(c.db, t);
    ResponseStamps(c.db, c1.db, First(t), MAX_ROUTE_KEYS, account);
    TickIs(c1, Overgrow(t, account), later);
    PlantedSound(c.db, c2.db, RootOf(t), FingerprintSet(First(t), First(t) + MAX_ROUTE_KEYS + 1));
    RespondedFromParts(c, c1, c2, t, account);
  }

  /** Stuck trees stay stuck through both steps, and the new one is stuck after them. */
  lemma StuckThrough(c: Stamped, c1: Stamped, c2: Stamped, t: nat, account: Account, time: int, now: int, later: int,
                     u: nat)
    requires t < LIST_LIMIT && Built(c, t, account, time) && time <= now && u <= t
    requires Commanded(c, c1, t, account) && c1 == Tick(c, Plant(t, account), now)
    requires Responded(c, c1, c2, t, account) && c2 == Tick(c1, Overgrow(t, account), later)
    ensures Stuck(c2, RootOf(u), now)
  {
    hide *;
    BuiltParts(c, t, account, time);
    CommandedParts(c, c1, t, account);
    RespondedParts(c, c1, c2, t, account);
    PlantedTick(c, Plant(t, account), now, RootOf(t), FingerprintSet(First(t), First(t) + MAX_ROUTE_KEYS), RootOf(u),
        time);
    QuietTick(c1, Overgrow(t, account), later, RootOf(u), time);
    if u < t {
      BuiltStuck(c, t, account, time, u);
      StuckLater(c2, RootOf(u), time, now);
    } else {
      FingerprintCount(First(t), First(t) + MAX_ROUTE_KEYS + 1);
      PlantedSound(c.db, c2.db, RootOf(t), FingerprintSet(First(t), First(t) + MAX_ROUTE_KEYS + 1));
      NewlyStuck(c1, c2, RootOf(t), now);
    }
  }

  /** Both steps of tree `t`: it is stuck, and so is every tree that was. */
  lemma TreeBuilt(c: Stamped, t: nat, account: Account, time: int, now: int, later: int)
    requires t < LIST_LIMIT && Built(c, t, account, time) && time <= now
    ensures Built(Tick(Tick(c, Plant(t, account), now), Overgrow(t, account), later), t + 1, account, now)
  {
    var c1 := Tick(c, Plant(t, account), now);
    var c2 := Tick(c1, Overgrow(t, account), later);
    CommandStep(c, t, account, time, now);
    ResponseStep(c, c1, t, account, time, later);
    forall u: nat | u <= t ensures Stuck(c2, RootOf(u), now) {
      StuckThrough(c, c1, c2, t, account, time, now, later, u);
    }
    KeysAfter(c, c1, c2, t, account, time);
    hide *;
    BuiltFromParts(c2, t, account, now);
  }

  lemma KeysAfter(c: Stamped, c1: Stamped, c2: Stamped, t: nat, account: Account, time: int)
    requires t < LIST_LIMIT && Built(c, t, account, time) && Responded(c, c1, c2, t, account)
    ensures Inv(c2.db) && Keyed(c2) && account in c2.db.accounts && c2.db.keys.Keys <= FingerprintSet(0, First(t + 1))
  {
    hide *;
    BuiltParts(c, t, account, time);
    RespondedParts(c, c1, c2, t, account);
    FreshRange(c.db, t);
    PlantedSound(c.db, c2.db, RootOf(t), FingerprintSet(First(t), First(t) + MAX_ROUTE_KEYS + 1));
  }

  // ---------------------------------------------------------------- the hundred, and one small tree

  const LAST: nat := 2 * LIST_LIMIT

  function StarvingStep(i: nat, account: Account): Step
    requires i <= LAST
  {
    if i == LAST then PlantSmall(account)
    else if i % 2 == 0 then Plant(i / 2, account)
    else Overgrow(i / 2, account)
  }

  function StarvingSteps(account: Account): seq<Step> {
    seq(LAST + 1, i requires 0 <= i <= LAST => StarvingStep(i, account))
  }

  const SMALL: Hash := RootAt(First(LIST_LIMIT))

  function StuckRoots(t: nat): set<Hash>
    requires t <= LIST_LIMIT
  { set u: nat | u < t :: RootOf(u) }

  lemma RootsDiffer(t: nat, u: nat)
    requires t <= LIST_LIMIT && u <= LIST_LIMIT && t != u
    ensures RootOf(t) != RootOf(u)
  {
    FingerprintsDiffer(First(t), First(u));
    hide Fingerprint;
  }

  lemma StuckNext(t: nat)
    requires 0 < t <= LIST_LIMIT
    ensures StuckRoots(t) == StuckRoots(t - 1) + {RootOf(t - 1)} && RootOf(t - 1) !in StuckRoots(t - 1)
  {
    hide RootOf;
    forall u: nat | u < t - 1 ensures RootOf(u) != RootOf(t - 1) {
      RootsDiffer(u, t - 1);
    }
  }

  lemma {:induction false} StuckCount(t: nat)
    requires t <= LIST_LIMIT
    ensures |StuckRoots(t)| == t
  {
    if t > 0 {
      StuckCount(t - 1);
      StuckNext(t);
      hide StuckRoots, RootOf;
    }
  }

  /** The run begins with these steps, and its clock has moved on by the last of them. */
  ghost predicate Starving(cs: seq<Stamped>, steps: seq<Step>, times: seq<int>, account: Account) {
    && IsTimedRun(cs, steps, times) && account in cs[0].db.accounts
    && |steps| > LAST && (forall i: nat | i <= LAST :: steps[i] == StarvingStep(i, account))
    && times[LAST - 2] < times[LAST]
  }

  lemma TwoTicks(cs: seq<Stamped>, steps: seq<Step>, times: seq<int>, account: Account, t: nat)
    requires Starving(cs, steps, times, account) && t < LIST_LIMIT
    ensures cs[2 * t + 2]
        == Tick(Tick(cs[2 * t], Plant(t, account), times[2 * t]), Overgrow(t, account), times[2 * t + 1])
    ensures t > 0 ==> times[2 * t - 2] <= times[2 * t]
  {
    hide Plant, Overgrow, PlantSmall, Tick, StepOk, Initial, Keyed;
    assert TickAt(cs, steps, times, 2 * t) && TickAt(cs, steps, times, 2 * t + 1);
    assert steps[2 * t] == StarvingStep(2 * t, account) && steps[2 * t + 1] == StarvingStep(2 * t + 1, account);
  }

  lemma NothingBuilt(cs: seq<Stamped>, steps: seq<Step>, times: seq<int>, account: Account, time: int)
    requires Starving(cs, steps, times, account)
    ensures Built(cs[0], 0, account, time)
  {
    InitialInv(cs[0].db);
    hide Inv, StarvingStep;
  }

  function TimeAt(times: seq<int>, t: nat): int
    requires 2 * t < |times| + 2 && |times| > 0
  { if t == 0 then times[0] else times[2 * t - 2] }

  lemma BuiltNext(cs: seq<Stamped>, steps: seq<Step>, times: seq<int>, account: Account, t: nat)
    requires Starving(cs, steps, times, account) && t < LIST_LIMIT && 2 * t + 2 < |cs| == |times| + 1
    requires Built(cs[2 * t], t, account, TimeAt(times, t))
    ensures Built(cs[2 * t + 2], t + 1, account, TimeAt(times, t + 1))
  {
    hide Starving, Built, Tick, Plant, Overgrow;
    TwoTicks(cs, steps, times, account, t);
    TreeBuilt(cs[2 * t], t, account, TimeAt(times, t), times[2 * t], times[2 * t + 1]);
  }

  lemma {:induction false} BuiltAt(cs: seq<Stamped>, steps: seq<Step>, times: seq<int>, account: Account, t: nat)
    requires Starving(cs, steps, times, account) && t <= LIST_LIMIT && 2 * t < |cs| && 0 < |times| == |cs| - 1
    ensures Built(cs[2 * t], t, account, TimeAt(times, t))
  {
    hide Starving, Built, TimeAt;
    if t == 0 {
      NothingBuilt(cs, steps, times, account, TimeAt(times, 0));
    } else {
      BuiltAt(cs, steps, times, account, t - 1);
      BuiltNext(cs, steps, times, account, t - 1);
    }
  }

  // ---------------------------------------------------------------- main results

  lemma SmallParts(c: Stamped, account: Account, time: int)
    requires Built(c, LIST_LIMIT, account, time)
    ensures Inv(c.db) && Keyed(c) && c.db.keys.Keys <= FingerprintSet(0, First(LIST_LIMIT))
    ensures 0 < 1 <= MAX_ROUTE_KEYS && First(LIST_LIMIT) < MANY && First(LIST_LIMIT) + 1 <= MANY
    ensures PlantSmall(account) == NewTree(First(LIST_LIMIT), 1, account) && SMALL == RootAt(First(LIST_LIMIT))
  {
    hide Inv, NewTree, RootAt, FingerprintSet;
  }

  /** After the small tree's command every stuck tree is in front of it. */
  lemma SmallBehind(c: Stamped, account: Account, time: int, now: int, u: nat)
    requires Built(c, LIST_LIMIT, account, time) && time < now && u < LIST_LIMIT
    ensures var after := Tick(c, PlantSmall(account), now);
            && Pends(after, SMALL) && |TreeTable(after.db, SMALL)| == 1 && Blocks(after, RootOf(u), SMALL)
  {
    hide *;
    var from, after := First(LIST_LIMIT), Tick(c, PlantSmall(account), now);
    var one := FingerprintSet(from, from + 1);
    SmallParts(c, account, time);
    SmallUnclaimed(c.db);
    PlantStamps(c.db, from, 1, account);
    TickIs(c, PlantSmall(account), now);
    FingerprintCount(from, from + 1);
    BuiltStuck(c, LIST_LIMIT, account, time, u);
    PlantedTick(c, PlantSmall(account), now, SMALL, one, RootOf(u), time);
    PlantedSound(c.db, after.db, SMALL, one);
    StuckBlocks(after, RootOf(u), time, SMALL, now);
  }

  lemma SmallUnclaimed(db: Db)
    requires db.keys.Keys <= FingerprintSet(0, First(LIST_LIMIT))
    ensures Unclaimed(db, First(LIST_LIMIT), 1)
  {
    hide Fingerprint;
    var from := First(LIST_LIMIT);
    forall h | h in FingerprintSet(from, from + 1) ensures h !in FingerprintSet(0, from) {
      FingerprintIn(0, from, from);
    }
  }

  lemma StuckBlocks(c: Stamped, r: Hash, time: int, x: Hash, now: int)
    requires Stuck(c, r, time) && Pends(c, x) && c.updated[x] == now && time < now
    ensures Blocks(c, r, x)
  {
    hide Oversized;
  }

  /** The run: a hundred oversized trees, and a pending tree of one key behind them all. */
  lemma HundredInFront(cs: seq<Stamped>, steps: seq<Step>, times: seq<int>, account: Account)
    requires Starving(cs, steps, times, account)
    ensures LAST + 1 < |cs| && Pends(cs[LAST + 1], SMALL) && |TreeTable(cs[LAST + 1].db, SMALL)| == 1
    ensures BlockAll(cs[LAST + 1], StuckRoots(LIST_LIMIT), SMALL) && |StuckRoots(LIST_LIMIT)| == LIST_LIMIT
  {
    assert TickAt(cs, steps, times, LAST) && steps[LAST] == StarvingStep(LAST, account);
    BuiltAt(cs, steps, times, account, LIST_LIMIT);
    StuckCount(LIST_LIMIT);
    var c := cs[LAST];
    assert cs[LAST + 1] == Tick(c, PlantSmall(account), times[LAST]);
    hide Built, Tick, PlantSmall, Blocks, Pends, TreeTable, RootOf, StepOk, Initial, Starving;
    forall u: nat | u < LIST_LIMIT ensures Blocks(cs[LAST + 1], RootOf(u), SMALL) {
      SmallBehind(c, account, times[LAST - 2], times[LAST], u);
    }
    SmallBehind(c, account, times[LAST - 2], times[LAST], 0);
  }

  /**
    In every continuation that spares the hundred, the small tree is never listed, though its retry
    would be accepted.
   */
  lemma SmallTreeStarves(cs: seq<Stamped>, steps: seq<Step>, times: seq<int>, account: Account, n: nat, rows: seq<Hash>)
    requires Starving(cs, steps, times, account) && LAST + 1 <= n < |cs| == |steps| + 1
    requires Undisturbing(cs, steps, LAST + 1, n, SMALL, StuckRoots(LIST_LIMIT)) && IsListing(cs[n], rows)
    ensures SMALL !in rows
  {
    HundredInFront(cs, steps, times, account);
    assert IsTimedRun(cs, steps, times);
    hide *;
    OversizedTreesStarve(cs, steps, times, LAST + 1, n, SMALL, StuckRoots(LIST_LIMIT), rows);
  }

  // ---------------------------------------------------------------- there is such a run

  predicate StampedBy(c: Stamped, time: int) { forall r | r in c.updated :: c.updated[r] <= time }

  lemma TickStamps(c: Stamped, step: Step, now: int)
    requires StampedBy(c, now)
    ensures StampedBy(Tick(c, step, now), now)
  {
    hide Next, Restamped;
  }

  lemma {:induction false} UnrollStamps(c: Stamped, steps: seq<Step>, i: nat)
    requires i <= |steps| && StampedBy(c, 0)
    ensures StampedBy(Unroll(c, steps, 0, Tick)[i], i)
  {
    hide *;
    if i > 0 {
      var before := Unroll(c, steps, 0, Tick)[i - 1];
      UnrollStamps(c, steps, i - 1);
      UnrollNext(c, steps, 0, Tick, i - 1);
      TickStamps(before, steps[i - 1], i - 1);
      StampedLonger(Unroll(c, steps, 0, Tick)[i], i - 1, i);
    }
  }

  lemma StampedLonger(c: Stamped, time: int, later: int)
    requires StampedBy(c, time) && time <= later
    ensures StampedBy(c, later)
  {}

  lemma StarvingStepOk(db: Db, i: nat, account: Account)
    requires i <= LAST
    ensures StepOk(db, StarvingStep(i, account))
  {
    hide SessionKeys, SessionKey, RootAt, Fingerprint;
  }

  lemma UnrolledTick(c: Stamped, account: Account, times: seq<int>, i: nat)
    requires StampedBy(c, 0) && i <= LAST && |times| == LAST + 1 && times[i] == i
    requires |StarvingSteps(account)| == LAST + 1 && StarvingSteps(account)[i] == StarvingStep(i, account)
    ensures |Unroll(c, StarvingSteps(account), 0, Tick)| == LAST + 2
    ensures TickAt(Unroll(c, StarvingSteps(account), 0, Tick), StarvingSteps(account), times, i)
  {
    hide *;
    var cs := Unroll(c, StarvingSteps(account), 0, Tick);
    UnrollStamps(c, StarvingSteps(account), i);
    UnrollNext(c, StarvingSteps(account), 0, Tick, i);
    StarvingStepOk(cs[i].db, i, account);
    TickFromParts(cs, StarvingSteps(account), times, i);
  }

  lemma TickFromParts(cs: seq<Stamped>, steps: seq<Step>, times: seq<int>, i: nat)
    requires i < |steps| && |cs| == |steps| + 1 && |times| == |steps|
    requires StepOk(cs[i].db, steps[i]) && cs[i + 1] == Tick(cs[i], steps[i], times[i]) && StampedBy(cs[i], times[i])
    ensures TickAt(cs, steps, times, i)
  {
    hide StepOk, Tick;
  }

  /** From any database the migration leaves, with any account. */
  lemma StarvingRunExists(db: Db, account: Account) returns (cs: seq<Stamped>, steps: seq<Step>, times: seq<int>)
    requires Initial(db) && account in db.accounts
    ensures Starving(cs, steps, times, account) && cs[0].db == db
  {
    var c := Stamped(db, map[]);
    steps, times := StarvingSteps(account), seq(LAST + 1, i => i);
    cs := Unroll(c, steps, 0, Tick);
    assert Keyed(c) && StampedBy(c, 0) && |steps| == LAST + 1;
    assert forall i: nat | i <= LAST :: steps[i] == StarvingStep(i, account);
    hide TickAt, StepOk, StarvingStep, StarvingSteps, Initial, Keyed, Tick, Unroll, StampedBy;
    forall i | 0 <= i < |steps| ensures TickAt(cs, steps, times, i) {
      UnrolledTick(c, account, times, i);
    }
  }
}
