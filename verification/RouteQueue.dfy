/**
  The order in which pending trees are retried: each pass of the scheduler lists the hundred
  that were updated longest ago, and a refused retry updates nothing.
 */
module RouteQueue {
  import opened Base
  import opened RouteKeys
  import opened Routes
  import opened RouteInvariant
  import opened RouteBinds
  import opened RouteRuns
  import opened RouteOutcomes
  import opened RoutePending

  const LIST_LIMIT: nat := 100

  /** The routing tables with the `updated_at` column of `session_roots`. */
  datatype Stamped = Stamped(db: Db, updated: map<Hash, int>)

  /** The root rows whose time a step writes: a committed command's root, and the rows a bind adds or changes. */
  function Restamped(db: Db, step: Step): set<Hash> {
    var after := Next(db, step);
    match step
    case Command(_, _) => if Committed(db, step).Some? then {Hash(step.request.root)} else {}
    case BindStep(_, _, _) => set r | r in after.roots && (r !in db.roots || after.roots[r] != db.roots[r])
    case _ => {}
  }

  function Tick(c: Stamped, step: Step, now: int): Stamped {
    var after := Next(c.db, step);
    Stamped(after,
            map r | r in after.roots ::
              if r in c.updated && r !in Restamped(c.db, step) then c.updated[r] else now)
  }

  predicate Keyed(c: Stamped) { c.updated.Keys == c.db.roots.Keys }

  // ---------------------------------------------------------------- the listing

  predicate TextLess(a: string, b: string) {
    if b == "" then false
    else if a == "" then true
    else a[0] < b[0] || (a[0] == b[0] && TextLess(a[1..], b[1..]))
  }

  lemma {:induction false} TextLessOneWay(a: string, b: string)
    ensures !(TextLess(a, b) && TextLess(b, a))
  {
    if a != "" && b != "" { TextLessOneWay(a[1..], b[1..]); }
  }

  predicate Pends(c: Stamped, r: Hash) { r in c.updated && r in c.db.roots && c.db.roots[r].status == Some(Pending) }

  predicate Earlier(c: Stamped, a: Hash, b: Hash) {
    && a in c.updated && b in c.updated
    && (c.updated[a] < c.updated[b] || (c.updated[a] == c.updated[b] && TextLess(a.text, b.text)))
  }

  /** `ORDER BY updated_at, root_key_hash LIMIT 100` over the pending rows. */
  ghost predicate IsListing(c: Stamped, rows: seq<Hash>) {
    && |rows| <= LIST_LIMIT
    && (forall r | r in rows :: Pends(c, r))
    && (forall i, j | 0 <= i < j < |rows| :: rows[i] != rows[j] && Earlier(c, rows[i], rows[j]))
    && (forall r | Pends(c, r) && r !in rows :: |rows| == LIST_LIMIT && forall y | y in rows :: Earlier(c, y, r))
  }

  /** The pending roots that come before `x`. */
  function Ahead(c: Stamped, x: Hash): set<Hash> { set r | r in c.updated && Pends(c, r) && r != x && Earlier(c, r, x) }

  lemma {:induction false} RowCount(rows: seq<Hash>)
    requires forall i, j | 0 <= i < j < |rows| :: rows[i] != rows[j]
    ensures |set r | r in rows| == |rows|
  {
    if rows != [] {
      var init, last := rows[..|rows| - 1], rows[|rows| - 1];
      RowCount(init);
      assert rows == init + [last];
      assert (set r | r in rows) == (set r | r in init) + {last};
    }
  }

  lemma SmallerSet(a: set<Hash>, b: set<Hash>)
    requires a <= b
    ensures |a| <= |b| && (a != b ==> |a| < |b|)
  {
    assert b == a + (b - a);
  }

  /** A pending root is listed exactly when fewer than a hundred pending roots come before it. */
  lemma ListedExactly(c: Stamped, rows: seq<Hash>, x: Hash)
    requires IsListing(c, rows) && Pends(c, x)
    ensures x in rows <==> |Ahead(c, x)| < LIST_LIMIT
  {
    var listed := set r | r in rows;
    RowCount(rows);
    if x in rows {
      forall r | r in Ahead(c, x) ensures r in listed - {x} {
        TextLessOneWay(r.text, x.text);
      }
      SmallerSet(Ahead(c, x), listed - {x});
    } else {
      assert listed <= Ahead(c, x);
      SmallerSet(listed, Ahead(c, x));
    }
  }

  // ---------------------------------------------------------------- steps

  /** Only a committed command makes a root pending, and it stamps it. */
  lemma PendingIsStamped(db: Db, step: Step, r: Hash)
    requires Inv(db) && StepOk(db, step)
    requires r in Next(db, step).roots && Next(db, step).roots[r].status == Some(Pending)
    ensures r in Restamped(db, step) || (r in db.roots && db.roots[r].status == Some(Pending))
  {
    match step
    case Command(_, _) =>
      if Committed(db, step).None? { UncommittedStep(db, step); } else { CommittedStep(db, step); }
      hide Committed, Next;
    case BindStep(_, _, _) =>
      hide Next;
    case _ =>
  }

  /** Whatever happens, nothing new gets in front of a root whose own row is not updated. */
  lemma AheadOnlyShrinks(c: Stamped, step: Step, now: int, x: Hash)
    requires Inv(c.db) && StepOk(c.db, step) && Keyed(c) && x in c.updated && c.updated[x] < now
    requires x in Next(c.db, step).roots && x !in Restamped(c.db, step)
    ensures Keyed(Tick(c, step, now)) && Tick(c, step, now).updated[x] == c.updated[x]
    ensures Ahead(Tick(c, step, now), x) <= Ahead(c, x)
  {
    var after := Tick(c, step, now);
    hide Next, Restamped, Inv, StepOk;
    forall r | r in Ahead(after, x) ensures r in Ahead(c, x) {
      PendingIsStamped(c.db, step, r);
    }
  }

  predicate Oversized(c: Stamped, r: Hash) { |TreeTable(c.db, r)| > MAX_ROUTE_KEYS }

  /** The step is an accepted retry of `y`. */
  ghost predicate Retries(c: Stamped, step: Step, y: Hash) {
    && step.Command? && IsRetry(c.db, y, step.request)
    && !Oversized(c, y) && c.db.roots[y].generation < I64_MAX
  }

  /** A command stamps its own root, and touches the trees it merges. */
  lemma CommandStamps(db: Db, step: Step, y: Hash)
    requires step.Command? && Hash(step.request.root) == y && Committed(db, step).Some?
    requires Committed(db, step).value.roots == {y}
    ensures Restamped(db, step) == {y}
    ensures forall b | b in db.keys && db.keys[b].root != y :: !Touches(db, step, b)
  {
    hide Committed, Next;
  }

  lemma RetryNames(db: Db, y: Hash, request: Request)
    requires IsRetry(db, y, request)
    ensures Hash(request.root) == y
  {}

  lemma RootOwnKey(db: Db, b: Hash)
    requires Inv(db) && b in db.roots
    ensures b in db.keys && db.keys[b].root == b
  {}

  /** An accepted retry commits, and touches no tree but its own. */
  lemma RetryStamps(db: Db, step: Step, y: Hash)
    requires Inv(db) && Stored(db) && StepOk(db, step) && step.Command? && IsRetry(db, y, step.request)
    requires |TreeTable(db, y)| <= MAX_ROUTE_KEYS && db.roots[y].generation < I64_MAX
    ensures Restamped(db, step) == {y} && forall b | b in db.roots && b != y :: !Touches(db, step, b)
  {
    assert EnvOk(db, step.env);
    hide *;
    RetryDecision(db, y, step.request, step.env);
    RetryNames(db, y, step.request);
    CommandStamps(db, step, y);
    forall b | b in db.roots && b != y ensures !Touches(db, step, b) {
      RootOwnKey(db, b);
    }
  }

  /** A refused retry changes nothing, not even the time. */
  lemma RefusedRetry(db: Db, step: Step, y: Hash)
    requires Inv(db) && Stored(db) && step.Command? && IsRetry(db, y, step.request)
    requires |TreeTable(db, y)| > MAX_ROUTE_KEYS
    ensures Next(db, step) == db && Restamped(db, step) == {} && forall b :: !Touches(db, step, b)
  {
    RetryChecked(db, y, step.request);
    hide Inv, Stored, IsRetry, TreeTable;
    assert Committed(db, step).None? by { hide Decide; }
    UncommittedStep(db, step);
  }

  lemma LaterIsNotAhead(c: Stamped, x: Hash, y: Hash)
    requires x in c.updated && (y in c.updated ==> c.updated[x] < c.updated[y])
    ensures y !in Ahead(c, x)
  {}

  lemma RestampedLast(c: Stamped, step: Step, now: int, x: Hash, y: Hash)
    requires Keyed(c) && x in c.updated && c.updated[x] < now && x in Next(c.db, step).roots
    requires Restamped(c.db, step) == {y} && y != x
    ensures y !in Ahead(Tick(c, step, now), x)
  {
    hide Next, Restamped;
    var after := Tick(c, step, now);
    assert y in after.updated ==> after.updated[y] == now;
    LaterIsNotAhead(after, x, y);
  }

  lemma AcceptedStamps(c: Stamped, step: Step, x: Hash, y: Hash)
    requires Inv(c.db) && Stored(c.db) && StepOk(c.db, step) && y in Ahead(c, x) && Retries(c, step, y)
    ensures Restamped(c.db, step) == {y} && y != x
  {
    hide Inv, Stored, StepOk, IsRetry, TreeTable, Restamped;
    RetryStamps(c.db, step, y);
  }

  /** An accepted retry leaves its place: its tree is served, or goes to the end to wait again. */
  lemma RetryLeavesPlace(c: Stamped, step: Step, now: int, x: Hash, y: Hash)
    requires Inv(c.db) && Stored(c.db) && StepOk(c.db, step) && Keyed(c) && x in c.updated && c.updated[x] < now
    requires x in Next(c.db, step).roots && y in Ahead(c, x) && Retries(c, step, y)
    ensures x !in Restamped(c.db, step) && |Ahead(Tick(c, step, now), x)| < |Ahead(c, x)|
  {
    hide *;
    AcceptedStamps(c, step, x, y);
    RestampedLast(c, step, now, x, y);
    AheadOnlyShrinks(c, step, now, x);
    SmallerSet(Ahead(Tick(c, step, now), x), Ahead(c, x));
  }

  // ---------------------------------------------------------------- one listing

  /** With fewer than a hundred oversized trees in front, every listing without `x` has one whose retry is accepted. */
  lemma SomeRetryAccepted(c: Stamped, rows: seq<Hash>, x: Hash)
    requires IsListing(c, rows) && Pends(c, x) && x !in rows
    requires |set y | y in Ahead(c, x) && Oversized(c, y)| < LIST_LIMIT
    ensures exists y :: y in rows && y in Ahead(c, x) && !Oversized(c, y)
  {
    var listed, stuck := set r | r in rows, set y | y in Ahead(c, x) && Oversized(c, y);
    RowCount(rows);
    hide Oversized;
    assert forall y | y in rows :: y in Ahead(c, x);
    if listed <= stuck {
      SmallerSet(listed, stuck);
    } else {
      var y :| y in listed && y !in stuck;
      assert y in rows;
    }
  }

  // ---------------------------------------------------------------- runs

  ghost predicate TickAt(cs: seq<Stamped>, steps: seq<Step>, times: seq<int>, i: nat)
    requires i < |steps| && |cs| == |steps| + 1 && |times| == |steps|
  {
    && StepOk(cs[i].db, steps[i]) && cs[i + 1] == Tick(cs[i], steps[i], times[i])
    && forall r | r in cs[i].updated :: cs[i].updated[r] <= times[i]
  }

  /** A run with a clock that never goes back, from any database the migration leaves. */
  ghost predicate IsTimedRun(cs: seq<Stamped>, steps: seq<Step>, times: seq<int>) {
    && |cs| == |steps| + 1 && |times| == |steps|
    && Initial(cs[0].db) && Keyed(cs[0])
    && (forall i, j | 0 <= i <= j < |times| :: times[i] <= times[j])
    && forall i | 0 <= i < |steps| :: TickAt(cs, steps, times, i)
  }

  lemma {:induction false} TimedRunSound(cs: seq<Stamped>, steps: seq<Step>, times: seq<int>, n: nat)
    requires IsTimedRun(cs, steps, times) && n < |cs|
    ensures Inv(cs[n].db) && Stored(cs[n].db) && Keyed(cs[n])
  {
    if n == 0 {
      InitialInv(cs[0].db);
    } else {
      TimedRunSound(cs, steps, times, n - 1);
      assert TickAt(cs, steps, times, n - 1);
      hide Inv, Stored, Next, Initial, Grows, Restamped;
      StepKeepsInv(cs[n - 1].db, steps[n - 1]);
      StepKeepsStored(cs[n - 1].db, steps[n - 1]);
    }
  }

  /** No command touches the tree of `b` and no bind cancels its reroute. */
  ghost predicate LeavesAlone(db: Db, step: Step, b: Hash) {
    !Touches(db, step, b) && !(Rooted(db) && b in db.keys && Cancels(db, step, b))
  }

  lemma RowStays(db: Db, step: Step, b: Hash)
    requires Inv(db) && StepOk(db, step) && b in db.roots && db.roots[b].status == Some(Pending)
        && LeavesAlone(db, step, b)
    ensures b !in Restamped(db, step) && b in Next(db, step).roots && Next(db, step).roots[b].status == Some(Pending)
  {
    match step
    case Command(_, _) =>
      if Committed(db, step).None? {
        UncommittedStep(db, step);
      } else {
        CommittedStep(db, step);
        hide Committed, Next;
      }
    case BindStep(raw, account, epoch) =>
      BindRowStays(db, step, b);
    case _ =>
  }

  lemma EpochBindRowStays(db: Db, input: map<Hash, Kind>, account: Account, epoch: Epoch, b: Hash)
    requires Rooted(db) && b in db.roots
    requires !(Current(db, epoch) && epoch.root == b && db.roots[b].action == Some(Reroute)
               && account in db.accounts && !Foreign(db, b, input))
    ensures var after := BindAtEpoch(db, input, account, epoch).0; b in after.roots && after.roots[b] == db.roots[b]
  {
    hide BindRoutes, FollowAccount, ClaimKeys, Foreign;
  }

  lemma BindRowStays(db: Db, step: Step, b: Hash)
    requires Inv(db) && step.BindStep? && b in db.roots && WaitsAt(db, b) && b in db.keys && !Cancels(db, step, b)
    ensures b in Next(db, step).roots && Next(db, step).roots[b] == db.roots[b]
  {
    assert db.keys[b].root == b;
    BindUnfolds(db, step.raw, step.account, step.epoch);
    hide Validate, Inv, KeyTable, BindAtEpoch, BindLegacy, PreferredRoot, Bind, NormalSet, Rooted, Foreign;
    if Validate(step.raw).Some? && step.raw != [] {
      var keys := Validate(step.raw).value;
      match step.epoch
      case Some(e) =>
        ForeignExactly(db, step.raw, b);
        EpochBindRowStays(db, KeyTable(keys), step.account, e, b);
      case None =>
        LegacyBindKeepsPending(db, KeyTable(keys), PreferredRoot(keys), step.account, b);
    }
  }

  lemma GrownTree(before: Db, after: Db, b: Hash)
    requires Rooted(before) && Rooted(after) && Grows(before, after) && b in before.roots && b in after.roots
    ensures |TreeTable(before, b)| <= |TreeTable(after, b)|
  {
    forall k | k in TreeTable(before, b) ensures k in TreeTable(after, b) {
      assert SameTree(before, k, b);
    }
    SmallerSet(TreeTable(before, b).Keys, TreeTable(after, b).Keys);
  }

  lemma TreeOnlyGrows(db: Db, step: Step, b: Hash)
    requires Inv(db) && StepOk(db, step) && b in db.roots && b in Next(db, step).roots
    ensures |TreeTable(db, b)| <= |TreeTable(Next(db, step), b)|
  {
    StepKeepsInv(db, step);
    hide Next, TreeTable, StepOk, References, Bounded, Unsplit, RowOk;
    GrownTree(db, Next(db, step), b);
  }

  /** An oversized tree in front of `x`. */
  predicate Blocks(c: Stamped, b: Hash, x: Hash) { b in Ahead(c, x) && Oversized(c, b) }

  lemma AheadStays(c: Stamped, after: Stamped, x: Hash, b: Hash, now: int)
    requires b in Ahead(c, x) && c.updated[x] <= now && Pends(after, b) && Pends(after, x)
    requires after.updated[b] == c.updated[b] && (after.updated[x] == c.updated[x] || after.updated[x] == now)
    ensures b in Ahead(after, x)
  {}

  lemma BlockerStays(c: Stamped, step: Step, now: int, x: Hash, b: Hash)
    requires Inv(c.db) && StepOk(c.db, step) && Keyed(c) && Blocks(c, b, x) && LeavesAlone(c.db, step, b)
    requires c.updated[x] <= now && Pends(Tick(c, step, now), x)
    ensures Blocks(Tick(c, step, now), b, x)
  {
    RowStays(c.db, step, b);
    TreeOnlyGrows(c.db, step, b);
    hide Next, Restamped, Inv, LeavesAlone, StepOk, TreeTable;
    var after := Tick(c, step, now);
    assert Pends(after, b) && after.updated[b] == c.updated[b];
    assert after.updated[x] == c.updated[x] || after.updated[x] == now;
    AheadStays(c, after, x, b, now);
    hide Ahead, Tick;
  }

  ghost predicate BlockAll(c: Stamped, stuck: set<Hash>, x: Hash) { forall b | b in stuck :: Blocks(c, b, x) }

  ghost predicate SpareAll(db: Db, step: Step, stuck: set<Hash>) { forall b | b in stuck :: LeavesAlone(db, step, b) }

  lemma BlockersStayStep(c: Stamped, step: Step, now: int, x: Hash, stuck: set<Hash>)
    requires Inv(c.db) && StepOk(c.db, step) && Keyed(c) && BlockAll(c, stuck, x) && SpareAll(c.db, step, stuck)
    requires (forall r | r in c.updated :: c.updated[r] <= now) && Pends(Tick(c, step, now), x)
    ensures BlockAll(Tick(c, step, now), stuck, x)
  {
    hide Inv, StepOk, Tick, LeavesAlone, Oversized, Pends;
    forall b | b in stuck ensures Blocks(Tick(c, step, now), b, x) {
      assert Blocks(c, b, x) && c.updated[x] <= now;
      BlockerStays(c, step, now, x, b);
    }
  }

  ghost predicate Undisturbing(cs: seq<Stamped>, steps: seq<Step>, i: nat, n: nat, x: Hash, stuck: set<Hash>)
    requires n < |cs| == |steps| + 1
  {
    && (forall m | i <= m < n :: SpareAll(cs[m].db, steps[m], stuck))
    && (forall m | i <= m <= n :: Pends(cs[m], x))
  }

  lemma {:induction false} BlockersStay(cs: seq<Stamped>, steps: seq<Step>, times: seq<int>, i: nat, n: nat,
                                        x: Hash, stuck: set<Hash>)
    requires IsTimedRun(cs, steps, times) && i <= n < |cs| && Undisturbing(cs, steps, i, n, x, stuck)
    requires BlockAll(cs[i], stuck, x)
    ensures BlockAll(cs[n], stuck, x)
    decreases n - i
  {
    hide Inv, Stored, Initial, Tick, SpareAll, StepOk, Pends, Keyed, BlockAll;
    if i < n {
      BlockersStay(cs, steps, times, i, n - 1, x, stuck);
      TimedRunSound(cs, steps, times, n - 1);
      assert TickAt(cs, steps, times, n - 1);
      BlockersStayStep(cs[n - 1], steps[n - 1], times[n - 1], x, stuck);
    }
  }

  /**
    A hundred oversized pending trees in front of a root starve it: no later listing contains
    it, until a command or a bind other than a retry acts on one of them.
   */
  lemma OversizedTreesStarve(cs: seq<Stamped>, steps: seq<Step>, times: seq<int>, i: nat, n: nat,
                             x: Hash, stuck: set<Hash>, rows: seq<Hash>)
    requires IsTimedRun(cs, steps, times) && i <= n < |cs| && Undisturbing(cs, steps, i, n, x, stuck)
    requires |stuck| >= LIST_LIMIT && BlockAll(cs[i], stuck, x)
    requires IsListing(cs[n], rows)
    ensures x !in rows
  {
    BlockersStay(cs, steps, times, i, n, x, stuck);
    hide IsListing, Ahead, Oversized, IsTimedRun;
    ListedExactly(cs[n], rows, x);
    SmallerSet(stuck, Ahead(cs[n], x));
  }

  lemma RetryMergesNothing(db: Db, step: Step, y: Hash)
    requires Inv(db) && Stored(db) && step.Command? && IsRetry(db, y, step.request) && Committed(db, step).Some?
    ensures Committed(db, step).value.roots == {y}
  {
    hide Rooted, RowOk, Bounded, Unsplit, Stored, Read, TreeIs, Checked, TreeTable, NormalSet, Entries, WellFormed;
    RetryChecked(db, y, step.request);
    RetryTable(db, y);
    var input := Checked(step.request).value;
    SettledRead(db, y, input, input, step.request.target, step.env);
    assert Read(db, true, y, input, step.request.target, step.env).prior + {y} == {y};
  }

  /** A retry, accepted or refused, touches no tree but its own. */
  lemma RetryTouchesOwn(db: Db, step: Step, y: Hash, b: Hash)
    requires Inv(db) && Stored(db) && step.Command? && IsRetry(db, y, step.request)
    requires b in db.keys && db.keys[b].root == b && b != y
    ensures !Touches(db, step, b)
  {
    hide Inv, Stored, IsRetry, Committed;
    if Committed(db, step).Some? {
      RetryMergesNothing(db, step, y);
    }
  }

  lemma RetryLeavesOthers(db: Db, step: Step, y: Hash, b: Hash)
    requires Inv(db) && Stored(db) && step.Command? && IsRetry(db, y, step.request)
    requires b in db.roots && |TreeTable(db, b)| > MAX_ROUTE_KEYS
    ensures !Touches(db, step, b)
  {
    hide *;
    RootOwnKey(db, b);
    if b == y {
      RefusedRetry(db, step, y);
    } else {
      RetryTouchesOwn(db, step, y, b);
    }
  }

  /** Retries, accepted or refused, never disturb an oversized tree. */
  lemma RetriesLeaveBlockers(c: Stamped, step: Step, y: Hash, b: Hash, x: Hash)
    requires Inv(c.db) && Stored(c.db) && step.Command? && IsRetry(c.db, y, step.request) && Blocks(c, b, x)
    ensures LeavesAlone(c.db, step, b)
  {
    CommandSpares(c.db, step, b);
    hide Inv, Stored, IsRetry, TreeTable, Touches, LeavesAlone;
    RetryLeavesOthers(c.db, step, y, b);
  }

  lemma CommandSpares(db: Db, step: Step, b: Hash)
    requires step.Command?
    ensures LeavesAlone(db, step, b) <==> !Touches(db, step, b)
  {}

  /** The step is an accepted retry of a root in front of `x`. */
  ghost predicate ServesAhead(c: Stamped, step: Step, x: Hash) {
    exists y :: y in Ahead(c, x) && Retries(c, step, y)
  }

  ghost function ServedAhead(cs: seq<Stamped>, steps: seq<Step>, i: nat, n: nat, x: Hash): nat
    requires i <= n <= |steps| < |cs|
    decreases n
  {
    if i == n then 0 else ServedAhead(cs, steps, i, n - 1, x) + if ServesAhead(cs[n - 1], steps[n - 1], x) then 1 else 0
  }

  lemma DrainStep(c: Stamped, step: Step, now: int, x: Hash)
    requires Inv(c.db) && Stored(c.db) && StepOk(c.db, step) && Keyed(c) && x in c.updated && c.updated[x] < now
    requires x in Next(c.db, step).roots && x !in Restamped(c.db, step)
    ensures |Ahead(Tick(c, step, now), x)| + (if ServesAhead(c, step, x) then 1 else 0) <= |Ahead(c, x)|
  {
    hide Inv, Stored, StepOk, Keyed, Ahead, Retries, Next, Restamped, Tick;
    AheadOnlyShrinks(c, step, now, x);
    SmallerSet(Ahead(Tick(c, step, now), x), Ahead(c, x));
    if y :| y in Ahead(c, x) && Retries(c, step, y) {
      RetryLeavesPlace(c, step, now, x, y);
    }
  }

  /** The row of `x` is there and is not updated in steps `i..n`. */
  ghost predicate Unmoved(cs: seq<Stamped>, steps: seq<Step>, i: nat, n: nat, x: Hash)
    requires n <= |steps| < |cs|
  {
    && (forall m | i <= m <= n :: x in cs[m].db.roots)
    && (forall m | i <= m < n :: x !in Restamped(cs[m].db, steps[m]))
  }

  /** Later steps come after the moment of `x`, so that nothing is updated at its very time. */
  ghost predicate PastTimeOf(cs: seq<Stamped>, times: seq<int>, i: nat, x: Hash)
    requires i < |cs|
  {
    x in cs[i].updated && forall m | i <= m < |times| :: cs[i].updated[x] < times[m]
  }

  lemma UnmovedStep(cs: seq<Stamped>, steps: seq<Step>, times: seq<int>, m: nat, x: Hash)
    requires IsTimedRun(cs, steps, times) && m < |steps| && PastTimeOf(cs, times, m, x)
    requires x in cs[m].db.roots && x in cs[m + 1].db.roots && x !in Restamped(cs[m].db, steps[m])
    ensures PastTimeOf(cs, times, m + 1, x)
    ensures Ahead(cs[m + 1], x) <= Ahead(cs[m], x)
    ensures |Ahead(cs[m + 1], x)| + (if ServesAhead(cs[m], steps[m], x) then 1 else 0) <= |Ahead(cs[m], x)|
  {
    TimedRunSound(cs, steps, times, m);
    assert TickAt(cs, steps, times, m);
    var c, step, now := cs[m], steps[m], times[m];
    hide Inv, Stored, Initial, Restamped, StepOk, ServesAhead, Ahead, Next, Tick, Keyed;
    TickParts(c, step, now, x);
    DrainStep(c, step, now, x);
    AheadOnlyShrinks(c, step, now, x);
  }

  /**
    While `x` is not updated nothing gets in front of it, and every accepted retry in front brings it
    one place nearer.
   */
  lemma {:induction false} QueueDrains(cs: seq<Stamped>, steps: seq<Step>, times: seq<int>, i: nat, n: nat, x: Hash)
    requires IsTimedRun(cs, steps, times) && i <= n < |cs| && Unmoved(cs, steps, i, n, x) && PastTimeOf(cs, times, i, x)
    ensures PastTimeOf(cs, times, n, x) && Ahead(cs[n], x) <= Ahead(cs[i], x)
    ensures |Ahead(cs[n], x)| + ServedAhead(cs, steps, i, n, x) <= |Ahead(cs[i], x)|
    decreases n - i
  {
    if i < n {
      hide IsTimedRun, Restamped, ServesAhead, Ahead, PastTimeOf;
      QueueDrains(cs, steps, times, i, n - 1, x);
      UnmovedStep(cs, steps, times, n - 1, x);
    }
  }

  lemma TickParts(c: Stamped, step: Step, now: int, x: Hash)
    requires Keyed(c) && x in c.db.roots
    ensures x in c.updated && Tick(c, step, now).db == Next(c.db, step)
  {}

  // ---------------------------------------------------------------- passes of the scheduler

  /**
    Step `m` retries `y` as it was found after the listing of state `i`: with the keys its tree had then,
    and with the account asked for then, which still exists.
   */
  ghost predicate RetriedAt(cs: seq<Stamped>, steps: seq<Step>, i: nat, m: nat, y: Hash)
    requires i <= m < |steps| < |cs|
  {
    && steps[m].Command? && (exists j | i <= j <= m :: IsRetry(cs[j].db, y, steps[m].request))
    && TargetKnown(cs[m].db, steps[m].request)
  }

  predicate TargetKnown(db: Db, request: Request) { request.target.Some? ==> request.target.value in db.accounts }

  /**
    One pass: the listing is taken in state `i`, and by state `n` every root on it has been
    retried, or stopped being pending for another reason.
   */
  ghost predicate PassAt(cs: seq<Stamped>, steps: seq<Step>, i: nat, n: nat, rows: seq<Hash>)
    requires i <= n <= |steps| < |cs|
  {
    && IsListing(cs[i], rows)
    && forall y | y in rows ::
         || (exists m | i <= m < n :: RetriedAt(cs, steps, i, m, y))
         || (exists m | i <= m <= n :: !Pends(cs[m], y))
  }

  /** A root whose retry is refused: its tree is too large, or its generation can rise no further. */
  ghost predicate Hopeless(c: Stamped, y: Hash) {
    y in c.db.roots && (Oversized(c, y) || c.db.roots[y].generation == I64_MAX)
  }

  lemma HopelessNext(cs: seq<Stamped>, steps: seq<Step>, times: seq<int>, m: nat, y: Hash)
    requires IsTimedRun(cs, steps, times) && m < |steps| && Hopeless(cs[m], y) && y in cs[m + 1].db.roots
    ensures Hopeless(cs[m + 1], y)
  {
    TimedRunSound(cs, steps, times, m);
    assert TickAt(cs, steps, times, m);
    TickDb(cs[m], steps[m], times[m]);
    hide IsTimedRun, Hopeless, Inv, Stored, Keyed, StepOk, Tick, Next;
    HopelessStep(cs[m], steps[m], times[m], y);
  }

  ghost predicate RootThrough(cs: seq<Stamped>, m: nat, n: nat, y: Hash)
    requires n < |cs|
  {
    forall k | m <= k <= n :: y in cs[k].db.roots
  }

  lemma RootThroughEnd(cs: seq<Stamped>, m: nat, n: nat, y: Hash)
    requires m < n < |cs| && RootThrough(cs, m, n, y)
    ensures RootThrough(cs, m, n - 1, y) && y in cs[n].db.roots
  {}

  /** Once hopeless, a root that stays a root stays hopeless. */
  lemma {:induction false} HopelessStays(cs: seq<Stamped>, steps: seq<Step>, times: seq<int>, m: nat, n: nat, y: Hash)
    requires IsTimedRun(cs, steps, times) && m <= n < |cs| == |steps| + 1 && Hopeless(cs[m], y)
    requires RootThrough(cs, m, n, y)
    ensures Hopeless(cs[n], y)
    decreases n - m
  {
    hide *;
    if m < n {
      RootThroughEnd(cs, m, n, y);
      HopelessStays(cs, steps, times, m, n - 1, y);
      HopelessNext(cs, steps, times, n - 1, y);
    }
  }

  lemma TickDb(c: Stamped, step: Step, now: int)
    ensures Tick(c, step, now).db == Next(c.db, step)
  {}

  lemma HopelessStep(c: Stamped, step: Step, now: int, y: Hash)
    requires Inv(c.db) && StepOk(c.db, step) && Hopeless(c, y) && y in Next(c.db, step).roots
    ensures Hopeless(Tick(c, step, now), y)
  {
    TreeOnlyGrows(c.db, step, y);
    StepKeepsInv(c.db, step);
    RootOwnKey(c.db, y);
    RootOwnKey(Next(c.db, step), y);
    assert Tree(c.db, y).generation <= Tree(Next(c.db, step), y).generation;
    assert RowOk(Next(c.db, step).roots[y]);
    hide Next, Restamped, Inv, Grows;
  }

  lemma AheadPends(c: Stamped, x: Hash, y: Hash)
    requires y in Ahead(c, x)
    ensures Pends(c, y) && y in c.db.roots
  {}

  lemma {:induction false} TimedRunGrows(cs: seq<Stamped>, steps: seq<Step>, times: seq<int>, i: nat, n: nat)
    requires IsTimedRun(cs, steps, times) && i <= n < |cs|
    ensures Inv(cs[i].db) && Inv(cs[n].db) && Grows(cs[i].db, cs[n].db)
    decreases n - i
  {
    TimedRunSound(cs, steps, times, i);
    if i < n {
      TimedRunGrows(cs, steps, times, i, n - 1);
      assert TickAt(cs, steps, times, n - 1);
      hide Next, Initial, Restamped, StepOk, Keyed, References, RowOk, Bounded, Unsplit, Stored;
      StepKeepsInv(cs[n - 1].db, steps[n - 1]);
      GrowsTransitive(cs[i].db, cs[n - 1].db, cs[n].db);
    }
  }

  lemma OwnTreeDecided(db: Db, y: Hash, input: map<Hash, Kind>, target: Option<Account>, env: Env)
    requires Inv(db) && y in db.roots && db.roots[y].generation < I64_MAX && y in input
    requires target.Some? ==> target.value in db.accounts
    requires forall k | k in input :: k in db.keys && db.keys[k].root == y
    ensures var d := Decide(db, true, y, input, target, env); d.Ok? && d.value.roots == {y}
  {
    assert PriorRoots(db.keys, input) == {y};
    assert PriorRoots(db.keys, input) + {y} == {y};
    hide Inv, PriorRoots, MergedKeys, RequiresMove, Newest, RoutedKeys, LabelOf, PreviousLabels, ChangedKeys,
         MappingChanged, RootGenerations, RouteGenerations, StatusOf, MaxOf;
    HighestRead(db, true, y, input, target, env, db.roots[y].generation);
  }

  /** A valid request whose keys are all in the tree of its root commits on that tree alone. */
  lemma OwnTreeCommits(db: Db, step: Step, y: Hash)
    requires Inv(db) && step.Command? && y in db.roots && db.roots[y].generation < I64_MAX
    requires Hash(step.request.root) == y && !step.request.dryRun && TargetKnown(db, step.request)
    requires Checked(step.request).Some? && y in Checked(step.request).value
    requires forall k | k in Checked(step.request).value :: k in db.keys && db.keys[k].root == y
    ensures Committed(db, step).Some? && Committed(db, step).value.roots == {y}
  {
    hide Inv, Checked, Decide;
    OwnTreeDecided(db, y, Checked(step.request).value, step.request.target, step.env);
  }

  lemma RetryInput(before: Db, request: Request, y: Hash)
    requires Inv(before) && Stored(before) && IsRetry(before, y, request) && |TreeTable(before, y)| <= MAX_ROUTE_KEYS
    ensures Checked(request).Some? && y in Checked(request).value && !request.dryRun && Hash(request.root) == y
    ensures forall k | k in Checked(request).value :: SameTree(before, k, y)
  {
    RootOwnKey(before, y);
    RetryChecked(before, y, request);
    hide Inv, Stored, Checked, NormalSet, Entries, WellFormed;
  }

  lemma RootsTree(db: Db, y: Hash, k: Hash)
    requires Inv(db) && y in db.roots && SameTree(db, k, y)
    ensures k in db.keys && db.keys[k].root == y
  {
    RootOwnKey(db, y);
  }

  /** So does the retry of a root, with the keys its tree had earlier. */
  lemma RetryCommits(before: Db, db: Db, step: Step, y: Hash)
    requires Inv(before) && Stored(before) && Inv(db) && Grows(before, db) && step.Command?
    requires IsRetry(before, y, step.request) && |TreeTable(before, y)| <= MAX_ROUTE_KEYS
    requires y in db.roots && db.roots[y].generation < I64_MAX && TargetKnown(db, step.request)
    ensures Restamped(db, step) == {y}
  {
    RetryInput(before, step.request, y);
    assert forall a, b | SameTree(before, a, b) :: SameTree(db, a, b);
    hide *;
    forall k | k in Checked(step.request).value ensures k in db.keys && db.keys[k].root == y {
      RootsTree(db, y, k);
    }
    OwnTreeCommits(db, step, y);
    CommandStamps(db, step, y);
  }

  lemma HopefulParts(c: Stamped, y: Hash)
    requires Inv(c.db) && y in c.db.roots && !Hopeless(c, y)
    ensures |TreeTable(c.db, y)| <= MAX_ROUTE_KEYS && c.db.roots[y].generation < I64_MAX
  {
    assert RowOk(c.db.roots[y]);
    hide TreeTable;
  }

  lemma RetryFound(cs: seq<Stamped>, steps: seq<Step>, i: nat, m: nat, y: Hash) returns (j: nat)
    requires i <= m < |steps| < |cs| && RetriedAt(cs, steps, i, m, y)
    ensures i <= j <= m && steps[m].Command? && IsRetry(cs[j].db, y, steps[m].request)
    ensures TargetKnown(cs[m].db, steps[m].request)
  {
    hide IsRetry, TargetKnown;
    j :| i <= j <= m && IsRetry(cs[j].db, y, steps[m].request);
  }

  /** A root that is retried while there is hope for it is stamped. */
  lemma RetriedStamps(cs: seq<Stamped>, steps: seq<Step>, times: seq<int>, i: nat, m: nat, y: Hash)
    requires IsTimedRun(cs, steps, times) && i <= m < |steps| < |cs| && RetriedAt(cs, steps, i, m, y)
    requires RootThrough(cs, i, m, y) && !Hopeless(cs[m], y)
    ensures Restamped(cs[m].db, steps[m]) == {y}
  {
    var j := RetryFound(cs, steps, i, m, y);
    assert y in cs[j].db.roots && y in cs[m].db.roots && RootThrough(cs, j, m, y) && |cs| == |steps| + 1;
    hide *;
    TimedRunSound(cs, steps, times, j);
    TimedRunGrows(cs, steps, times, j, m);
    if Hopeless(cs[j], y) {
      HopelessStays(cs, steps, times, j, m, y);
    } else {
      HopefulParts(cs[j], y);
      HopefulParts(cs[m], y);
      RetryCommits(cs[j].db, cs[m].db, steps[m], y);
    }
  }

  lemma RetriedNext(cs: seq<Stamped>, steps: seq<Step>, times: seq<int>, i: nat, m: nat, x: Hash, y: Hash)
    requires IsTimedRun(cs, steps, times) && i <= m < |steps| < |cs| && RetriedAt(cs, steps, i, m, y)
    requires PastTimeOf(cs, times, m, x) && RootThrough(cs, i, m, y) && y != x && !Hopeless(cs[m], y)
    requires x in cs[m + 1].db.roots
    ensures y !in Ahead(cs[m + 1], x)
  {
    TimedRunSound(cs, steps, times, m);
    assert TickAt(cs, steps, times, m);
    TickDb(cs[m], steps[m], times[m]);
    assert cs[m].updated[x] < times[m];
    RetriedStamps(cs, steps, times, i, m, y);
    hide IsTimedRun, PastTimeOf, Inv, Stored, StepOk, Next, Restamped, Ahead, Hopeless, Keyed, RetriedAt, Tick,
         RootThrough;
    RestampedLast(cs[m], steps[m], times[m], x, y);
  }

  /** A root on the list that is retried while there is hope for it is out of the way afterwards. */
  lemma RetriedLeaves(cs: seq<Stamped>, steps: seq<Step>, times: seq<int>, i: nat, m: nat, n: nat, x: Hash, y: Hash)
    requires IsTimedRun(cs, steps, times) && i <= m < n < |cs| == |steps| + 1 && RetriedAt(cs, steps, i, m, y)
    requires Unmoved(cs, steps, m, n, x) && PastTimeOf(cs, times, m, x)
    requires RootThrough(cs, i, m, y) && y != x && !Hopeless(cs[m], y)
    ensures y !in Ahead(cs[n], x)
  {
    assert x in cs[m + 1].db.roots && x in cs[m].db.roots && x !in Restamped(cs[m].db, steps[m]);
    assert Unmoved(cs, steps, m + 1, n, x);
    hide *;
    RetriedNext(cs, steps, times, i, m, x, y);
    UnmovedStep(cs, steps, times, m, x);
    QueueDrains(cs, steps, times, m + 1, n, x);
  }

  /** A root in front at the end of a wait was in front, and pending, all along. */
  lemma AheadAllAlong(cs: seq<Stamped>, steps: seq<Step>, times: seq<int>, i: nat, n: nat, x: Hash, y: Hash)
    requires IsTimedRun(cs, steps, times) && i <= n < |cs| == |steps| + 1 && y in Ahead(cs[n], x)
    requires Unmoved(cs, steps, i, n, x) && PastTimeOf(cs, times, i, x)
    ensures y != x && RootThrough(cs, i, n, y)
    ensures forall k | i <= k <= n :: PastTimeOf(cs, times, k, x) && Pends(cs[k], y)
  {
    hide IsTimedRun, Ahead, Pends, PastTimeOf, Restamped;
    assert y != x by { AheadNotSelf(cs[n], x); }
    forall k | i <= k <= n ensures PastTimeOf(cs, times, k, x) && Pends(cs[k], y) && y in cs[k].db.roots {
      QueueDrains(cs, steps, times, i, k, x);
      QueueDrains(cs, steps, times, k, n, x);
      AheadPends(cs[k], x, y);
    }
  }

  lemma AheadNotSelf(c: Stamped, x: Hash)
    ensures x !in Ahead(c, x)
  {}

  /** How a pass leaves a root of its list that pends throughout: it was retried. */
  lemma PassRetries(cs: seq<Stamped>, steps: seq<Step>, i: nat, n: nat, rows: seq<Hash>, y: Hash) returns (m: nat)
    requires i <= n <= |steps| < |cs| && PassAt(cs, steps, i, n, rows) && y in rows
    requires forall k | i <= k <= n :: Pends(cs[k], y)
    ensures i <= m < n && RetriedAt(cs, steps, i, m, y)
  {
    hide IsListing, RetriedAt, Pends;
    m :| i <= m < n && RetriedAt(cs, steps, i, m, y);
  }

  /** Whatever happened to it, a listed root that is not hopeless at the end of the pass is no longer in front. */
  lemma PassServes(cs: seq<Stamped>, steps: seq<Step>, times: seq<int>, i: nat, n: nat, rows: seq<Hash>, x: Hash,
      y: Hash)
    requires IsTimedRun(cs, steps, times) && i <= n < |cs| && PassAt(cs, steps, i, n, rows) && y in rows
    requires Unmoved(cs, steps, i, n, x) && PastTimeOf(cs, times, i, x) && !Hopeless(cs[n], y)
    ensures y !in Ahead(cs[n], x)
  {
    assert |cs| == |steps| + 1;
    if y in Ahead(cs[n], x) {
      AheadAllAlong(cs, steps, times, i, n, x, y);
      var m := PassRetries(cs, steps, i, n, rows, y);
      assert RootThrough(cs, i, m, y) && RootThrough(cs, m, n, y) && Unmoved(cs, steps, m, n, x);
      hide *;
      if Hopeless(cs[m], y) {
        HopelessStays(cs, steps, times, m, n, y);
      } else {
        RetriedLeaves(cs, steps, times, i, m, n, x, y);
      }
    }
  }

  /** The roots on a list that are still in front of `x`, with no hope left. */
  ghost function HopelessAhead(c: Stamped, rows: seq<Hash>, x: Hash): set<Hash> {
    set y | y in rows && y in Ahead(c, x) && Hopeless(c, y)
  }

  /** A pass that does not list `x` brings it nearer, unless the whole listing stays in front of it without hope. */
  lemma PassDrains(cs: seq<Stamped>, steps: seq<Step>, times: seq<int>, i: nat, n: nat, rows: seq<Hash>, x: Hash)
    requires IsTimedRun(cs, steps, times) && i <= n < |cs| && PassAt(cs, steps, i, n, rows)
    requires Unmoved(cs, steps, i, n, x) && PastTimeOf(cs, times, i, x) && Pends(cs[i], x) && x !in rows
    requires |HopelessAhead(cs[n], rows, x)| < LIST_LIMIT
    ensures |Ahead(cs[n], x)| < |Ahead(cs[i], x)|
  {
    hide IsTimedRun, Hopeless, Unmoved, PastTimeOf;
    var listed := set r | r in rows;
    RowCount(rows);
    assert HopelessAhead(cs[n], rows, x) != listed;
    assert HopelessAhead(cs[n], rows, x) <= listed;
    var y :| y in listed && y !in HopelessAhead(cs[n], rows, x);
    assert y in Ahead(cs[i], x);
    if y in Ahead(cs[n], x) {
      PassServes(cs, steps, times, i, n, rows, x, y);
    }
    QueueDrains(cs, steps, times, i, n, x);
    hide Ahead, IsListing;
    SmallerSet(Ahead(cs[n], x), Ahead(cs[i], x));
  }

  /** Consecutive passes: `at[p]` is the state in which pass `p` takes its listing. */
  ghost predicate Passes(cs: seq<Stamped>, steps: seq<Step>, at: seq<nat>, listings: seq<seq<Hash>>)
    requires |cs| == |steps| + 1
  {
    && |at| == |listings| + 1
    && (forall p | 0 <= p < |at| :: at[p] < |cs|)
    && (forall p, q | 0 <= p <= q < |at| :: at[p] <= at[q])
    && forall p | 0 <= p < |listings| :: PassAt(cs, steps, at[p], at[p + 1], listings[p])
  }

  /** No pass ends with a hundred roots of its list in front of `x` that have no hope left. */
  ghost predicate SomeHope(cs: seq<Stamped>, at: seq<nat>, listings: seq<seq<Hash>>, x: Hash)
    requires |at| == |listings| + 1 && forall p | 0 <= p < |at| :: at[p] < |cs|
  {
    forall p | 0 <= p < |listings| :: |HopelessAhead(cs[at[p + 1]], listings[p], x)| < LIST_LIMIT
  }

  ghost predicate WaitsQuietly(cs: seq<Stamped>, steps: seq<Step>, times: seq<int>, i: nat, n: nat, x: Hash)
    requires n <= |steps| < |cs| && i <= n
  {
    Unmoved(cs, steps, i, n, x) && PastTimeOf(cs, times, i, x) && forall m | i <= m <= n :: Pends(cs[m], x)
  }

  lemma QuietPart(cs: seq<Stamped>, steps: seq<Step>, times: seq<int>, i: nat, j: nat, n: nat, x: Hash)
    requires IsTimedRun(cs, steps, times) && i <= j <= n < |cs| && WaitsQuietly(cs, steps, times, i, n, x)
    ensures WaitsQuietly(cs, steps, times, j, n, x) && WaitsQuietly(cs, steps, times, i, j, x)
  {
    hide IsTimedRun, Pends, Restamped, Ahead, PastTimeOf;
    QueueDrains(cs, steps, times, i, j, x);
  }

  lemma PassParts(cs: seq<Stamped>, steps: seq<Step>, at: seq<nat>, listings: seq<seq<Hash>>, p: nat)
    requires |cs| == |steps| + 1 && Passes(cs, steps, at, listings) && p <= |listings|
    ensures |at| == |listings| + 1 && forall q | 0 <= q < |at| :: at[q] < |cs|
    ensures at[0] <= at[p] <= at[|listings|]
    ensures p < |listings| ==>
              at[p] <= at[p + 1] <= at[|listings|] && PassAt(cs, steps, at[p], at[p + 1], listings[p])
  {
    hide PassAt;
  }

  lemma PassHope(cs: seq<Stamped>, at: seq<nat>, listings: seq<seq<Hash>>, p: nat, x: Hash)
    requires |at| == |listings| + 1 && forall p | 0 <= p < |at| :: at[p] < |cs|
    requires SomeHope(cs, at, listings, x) && p < |listings|
    ensures |HopelessAhead(cs[at[p + 1]], listings[p], x)| < LIST_LIMIT
  {
    hide HopelessAhead;
  }

  lemma QuietParts(cs: seq<Stamped>, steps: seq<Step>, times: seq<int>, i: nat, n: nat, x: Hash)
    requires i <= n <= |steps| < |cs| && WaitsQuietly(cs, steps, times, i, n, x)
    ensures Unmoved(cs, steps, i, n, x) && PastTimeOf(cs, times, i, x) && Pends(cs[i], x)
  {
    hide Unmoved, PastTimeOf, Pends;
  }

  /** Each pass lists `x` or brings it nearer. */
  lemma {:induction false} PassesDrain(cs: seq<Stamped>, steps: seq<Step>, times: seq<int>, at: seq<nat>,
                                       listings: seq<seq<Hash>>, p: nat, x: Hash)
    requires IsTimedRun(cs, steps, times) && Passes(cs, steps, at, listings) && p <= |listings|
    requires SomeHope(cs, at, listings, x) && WaitsQuietly(cs, steps, times, at[0], at[|listings|], x)
    requires forall q | 0 <= q < p :: x !in listings[q]
    ensures |Ahead(cs[at[p]], x)| + p <= |Ahead(cs[at[0]], x)|
  {
    assert |cs| == |steps| + 1;
    hide *;
    PassParts(cs, steps, at, listings, 0);
    if p > 0 {
      PassesDrain(cs, steps, times, at, listings, p - 1, x);
      PassParts(cs, steps, at, listings, p - 1);
      PassHope(cs, at, listings, p - 1, x);
      QuietPart(cs, steps, times, at[0], at[p - 1], at[|listings|], x);
      QuietPart(cs, steps, times, at[p - 1], at[p], at[|listings|], x);
      QuietParts(cs, steps, times, at[p - 1], at[p], x);
      PassDrains(cs, steps, times, at[p - 1], at[p], listings[p - 1], x);
    }
  }

  /** `x` waits from the first listing to the last, which is taken after the passes. */
  ghost predicate WaitsForPasses(cs: seq<Stamped>, steps: seq<Step>, times: seq<int>, at: seq<nat>,
                                 listings: seq<seq<Hash>>, rows: seq<Hash>, x: Hash)
  {
    && IsTimedRun(cs, steps, times) && Passes(cs, steps, at, listings) && IsListing(cs[at[|listings|]], rows)
    && WaitsQuietly(cs, steps, times, at[0], at[|listings|], x)
  }

  /**
    A root with `w` pending roots in front is on a listing after at most `w - 99` passes, as long as no
    pass ends with a hundred hopeless roots in front of it.
   */
  lemma ListedInTime(cs: seq<Stamped>, steps: seq<Step>, times: seq<int>, at: seq<nat>,
                     listings: seq<seq<Hash>>, rows: seq<Hash>, x: Hash)
    requires WaitsForPasses(cs, steps, times, at, listings, rows, x) && SomeHope(cs, at, listings, x)
    requires |Ahead(cs[at[0]], x)| < |listings| + LIST_LIMIT
    ensures x in rows || exists p :: 0 <= p < |listings| && x in listings[p]
  {
    assert |cs| == |steps| + 1;
    hide IsTimedRun, Ahead, HopelessAhead, Unmoved, PastTimeOf, IsListing, PassAt;
    if forall p | 0 <= p < |listings| :: x !in listings[p] {
      PassesDrain(cs, steps, times, at, listings, |listings|, x);
      assert Pends(cs[at[|listings|]], x);
      ListedExactly(cs[at[|listings|]], rows, x);
    }
  }

  /** A root whose retry would be accepted is not listed by a pass that ends with its row as it was. */
  lemma QuietIsUnlisted(cs: seq<Stamped>, steps: seq<Step>, times: seq<int>, i: nat, j: nat, n: nat, rows: seq<Hash>,
                        x: Hash)
    requires IsTimedRun(cs, steps, times) && i <= j <= n < |cs| == |steps| + 1 && PassAt(cs, steps, i, j, rows)
    requires WaitsQuietly(cs, steps, times, i, n, x) && !Hopeless(cs[n], x)
    ensures x !in rows
  {
    hide IsTimedRun, Hopeless, IsListing, RetriedAt, Restamped, PastTimeOf, Pends;
    if x in rows {
      assert forall m | i <= m <= n :: Pends(cs[m], x);
      var m: nat :| i <= m < j && RetriedAt(cs, steps, i, m, x);
      if Hopeless(cs[m], x) {
        HopelessStays(cs, steps, times, m, n, x);
      } else {
        RetriedStamps(cs, steps, times, i, m, x);
      }
    }
  }

  /**
    When the retry of such a root would be accepted, it is the listing after those passes that holds it,
    and none before.
   */
  lemma HopefulListedInTime(cs: seq<Stamped>, steps: seq<Step>, times: seq<int>, at: seq<nat>,
                            listings: seq<seq<Hash>>, rows: seq<Hash>, x: Hash)
    requires WaitsForPasses(cs, steps, times, at, listings, rows, x) && SomeHope(cs, at, listings, x)
    requires |Ahead(cs[at[0]], x)| < |listings| + LIST_LIMIT && !Hopeless(cs[at[|listings|]], x)
    ensures x in rows && forall p | 0 <= p < |listings| :: x !in listings[p]
  {
    assert |cs| == |steps| + 1;
    ListedInTime(cs, steps, times, at, listings, rows, x);
    hide IsTimedRun, Ahead, SomeHope, IsListing, PassAt, Hopeless;
    forall p | 0 <= p < |listings| ensures x !in listings[p] {
      QuietPart(cs, steps, times, at[0], at[p], at[|listings|], x);
      QuietIsUnlisted(cs, steps, times, at[p], at[p + 1], at[|listings|], listings[p], x);
    }
  }

  // ---------------------------------------------------------------- both sides

  /** The oversized roots in front of `x`. */
  function StuckAhead(c: Stamped, x: Hash): set<Hash> { set y | y in Ahead(c, x) && Oversized(c, y) }

  /** Whatever is hopeless in front of `x` was oversized when the wait began. */
  ghost predicate NoneOutgrows(cs: seq<Stamped>, i: nat, n: nat, x: Hash)
    requires i <= n < |cs|
  {
    forall m, y | i <= m <= n && y in Ahead(cs[m], x) && Hopeless(cs[m], y) :: Oversized(cs[i], y)
  }

  /** No step acts on the roots that were oversized when the wait began, except by retrying them. */
  ghost predicate StuckSpared(cs: seq<Stamped>, steps: seq<Step>, i: nat, n: nat, x: Hash)
    requires i <= n <= |steps| < |cs|
  {
    forall m | i <= m < n :: SpareAll(cs[m].db, steps[m], StuckAhead(cs[i], x))
  }

  lemma HopeFromStart(cs: seq<Stamped>, steps: seq<Step>, times: seq<int>, i: nat, m: nat, n: nat, rows: seq<Hash>,
                      x: Hash)
    requires IsTimedRun(cs, steps, times) && i <= m <= n < |cs| == |steps| + 1
    requires WaitsQuietly(cs, steps, times, i, n, x) && NoneOutgrows(cs, i, n, x)
    ensures |HopelessAhead(cs[m], rows, x)| <= |StuckAhead(cs[i], x)|
  {
    QuietPart(cs, steps, times, i, m, n, x);
    QueueDrains(cs, steps, times, i, m, x);
    hide IsTimedRun, Ahead, Hopeless, Oversized, WaitsQuietly;
    SmallerSet(HopelessAhead(cs[m], rows, x), StuckAhead(cs[i], x));
  }

  lemma StuckStarve(cs: seq<Stamped>, steps: seq<Step>, times: seq<int>, i: nat, m: nat, n: nat, rows: seq<Hash>,
                    x: Hash)
    requires IsTimedRun(cs, steps, times) && i <= m <= n < |cs| == |steps| + 1 && IsListing(cs[m], rows)
    requires WaitsQuietly(cs, steps, times, i, n, x) && StuckSpared(cs, steps, i, n, x)
    requires |StuckAhead(cs[i], x)| >= LIST_LIMIT
    ensures x !in rows
  {
    hide IsTimedRun, IsListing, Ahead, Oversized, SpareAll, Unmoved, PastTimeOf, Pends;
    OversizedTreesStarve(cs, steps, times, i, m, x, StuckAhead(cs[i], x), rows);
  }

  /**
    Both sides as one condition that can be read off the table when the wait begins: after enough passes
    the root is listed if and only if fewer than a hundred oversized roots were in front of it.
   */
  lemma ListedExactlyInTime(cs: seq<Stamped>, steps: seq<Step>, times: seq<int>, at: seq<nat>,
                            listings: seq<seq<Hash>>, rows: seq<Hash>, x: Hash)
    requires WaitsForPasses(cs, steps, times, at, listings, rows, x)
    requires |Ahead(cs[at[0]], x)| < |listings| + LIST_LIMIT && !Hopeless(cs[at[|listings|]], x)
    requires NoneOutgrows(cs, at[0], at[|listings|], x) && StuckSpared(cs, steps, at[0], at[|listings|], x)
    ensures x in rows <==> |StuckAhead(cs[at[0]], x)| < LIST_LIMIT
  {
    assert |cs| == |steps| + 1;
    hide IsTimedRun, Ahead, Hopeless, IsListing, PassAt, StuckAhead, HopelessAhead, NoneOutgrows, StuckSpared,
         WaitsQuietly;
    if |StuckAhead(cs[at[0]], x)| < LIST_LIMIT {
      forall p | 0 <= p < |listings| ensures |HopelessAhead(cs[at[p + 1]], listings[p], x)| < LIST_LIMIT {
        HopeFromStart(cs, steps, times, at[0], at[p + 1], at[|listings|], listings[p], x);
      }
      HopefulListedInTime(cs, steps, times, at, listings, rows, x);
    } else {
      StuckStarve(cs, steps, times, at[0], at[|listings|], at[|listings|], rows, x);
    }
  }
}
