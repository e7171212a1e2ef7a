/** Over whole runs: exactly which ledgers keep complete, partial and unpriced adding up to the requests. */
module CostCover {
  import opened Base
  import opened Pricing
  import opened CostLedger
  import opened CostRuns

  predicate Payable(row: Row) { row.cost.None? && CostOf(row.model, row.usage).status.IsPriced() }

  /** The account's pending rows that a batch will find a price for. */
  function PayableOf(logs: map<nat, Row>, account: nat): set<nat> {
    set id | id in logs && logs[id].account == Some(account) && Payable(logs[id])
  }

  predicate AddsUp(t: Totals) { t.charged.complete + t.charged.partial + t.unpriced == t.requests }

  predicate AllAddUp(w: World) { forall a | a in w.ledger.totals :: AddsUp(w.ledger.totals[a]) }

  /** The counts add up, and the requests have room for every pending row that can be priced. */
  predicate RoomFor(l: Ledger, account: nat) {
    if account in l.totals then
      var t := l.totals[account];
      AddsUp(t) && t.requests >= t.charged.complete + t.charged.partial + |PayableOf(l.logs, account)|
    else PayableOf(l.logs, account) == {}
  }

  ghost predicate Roomy(w: World) { forall a | a in w.ledger.accounts :: RoomFor(w.ledger, a) }

  // ---------------------------------------------------------------- room is kept

  /** Pricing one pending row adds to the account's counts exactly what its priceable rows lose. */
  lemma PayableLosesOne(logs: map<nat, Row>, r: Selected, account: nat)
    requires IsPending(logs, r.id) && logs[r.id].model == r.model && logs[r.id].usage == r.usage
    requires r.account == Some(account) <==> logs[r.id].account == Some(account)
    ensures
      var after := logs[r.id := logs[r.id].(cost := Some(CostOf(r.model, r.usage)))];
      var c := ChargeOf(r.model, r.usage);
      |PayableOf(after, account)| + (if r.account == Some(account) then c.complete + c.partial else 0)
      == |PayableOf(logs, account)|
  {
    var after := logs[r.id := logs[r.id].(cost := Some(CostOf(r.model, r.usage)))];
    hide CostOf;
    var gone := if r.account == Some(account) && Payable(logs[r.id]) then {r.id} else {};
    assert PayableOf(after, account) == PayableOf(logs, account) - gone;
    assert gone <= PayableOf(logs, account);
    hide ChargeOf;
  }

  lemma {:induction false} PricedFromPayable(logs: map<nat, Row>, deleted: set<nat>, rows: seq<Selected>, account: nat)
    requires forall r | r in rows :: Genuine(logs, deleted, r)
    requires account !in deleted
    ensures
      var (after, entries) := PriceRows(logs, rows);
      var added := Sum(entries, account);
      added.complete + added.partial + |PayableOf(after, account)| == |PayableOf(logs, account)|
  {
    if rows != [] {
      hide ChargeOf, CostOf;
      var init, r := rows[..|rows| - 1], rows[|rows| - 1];
      PricedFromPayable(logs, deleted, init, account);
      PriceOnce(logs, init);
      var (before, entries) := PriceRows(logs, init);
      assert Genuine(logs, deleted, r);
      if IsPending(before, r.id) {
        assert IsPending(logs, r.id) && before[r.id].(cost := None) == logs[r.id];
        hide PriceRows, PricedOnce;
        PayableLosesOne(before, r, account);
        SumStep(entries, Entry(r.id, r.account, ChargeOf(r.model, r.usage)), account);
      }
    }
  }

  lemma CommitKeepsRoom(w: World, rows: seq<Selected>)
    requires Keyed(w) && Batched(w) && rows in w.batches && Roomy(w)
    ensures Roomy(AfterCommit(w, rows))
  {
    hide PriceRows, Sum, PayableOf;
    var after, l := AfterCommit(w, rows), w.ledger;
    var entries := PriceRows(l.logs, rows).1;
    forall a | a in l.accounts ensures RoomFor(after.ledger, a) {
      assert RoomFor(l, a);
      PricedFromPayable(l.logs, w.deleted, rows, a);
      SumNotNegative(w, rows, a);
      if !Touches(entries, a) { SumOfOthers(entries, a); }
      EmptySet(PayableOf(after.ledger.logs, a));
    }
  }

  lemma EmptySet(s: set<nat>)
    ensures |s| == 0 ==> s == {}
  {}

  lemma InsertKeepsRoom(w: World, step: Step)
    requires step.Insert? && Keyed(w) && Roomy(w)
    ensures Roomy(Next(w, step))
  {
    var l, after := w.ledger, Next(w, step).ledger;
    var c := ChargeOf(step.model, step.usage);
    hide CostOf, ChargeOf;
    forall a | a in after.accounts ensures RoomFor(after, a) {
      assert RoomFor(l, a);
      assert PayableOf(after.logs, a) == PayableOf(l.logs, a);
    }
  }

  lemma OthersKeepRoom(w: World, step: Step)
    requires !step.Insert? && !step.Commit? && Enabled(w, step) && Keyed(w) && Roomy(w)
    ensures Roomy(Next(w, step))
  {
    hide CostOf;
    var l, after := w.ledger, Next(w, step).ledger;
    forall a | a in after.accounts ensures RoomFor(after, a) {
      var was, now := PayableOf(l.logs, a), PayableOf(after.logs, a);
      assert now <= was;
      FewerPending(now, was);
      assert step.AddAccount? && a == step.account ==> now == {};
      assert a in l.accounts ==> RoomFor(l, a);
    }
  }

  lemma StepKeepsRoom(done: set<nat>, opening: map<nat, Totals>, w: World, step: Step)
    requires Enabled(w, step) && Sane(done, opening, w) && Roomy(w)
    ensures Roomy(Next(w, step))
  {
    hide Roomy, Next, AfterCommit;
    if step.Commit? {
      CommitOutcome(w, step);
      CommitKeepsRoom(w, w.batches[step.batch]);
    } else if step.Insert? {
      InsertKeepsRoom(w, step);
    } else {
      OthersKeepRoom(w, step);
    }
  }

  lemma {:induction false} RunKeepsRoom(worlds: seq<World>, steps: seq<Step>, i: nat)
    requires IsRun(worlds, steps) && i <= |steps| && Start(worlds[0]) && Roomy(worlds[0])
    ensures Roomy(worlds[i]) && AllAddUp(worlds[i])
  {
    RunKeepsSane(worlds, steps, i);
    if i > 0 {
      RunKeepsRoom(worlds, steps, i - 1);
      RunKeepsSane(worlds, steps, i - 1);
      StepKeepsRoomHere(worlds, steps, i);
    }
    RoomAddsUp(worlds[i]);
  }

  lemma StepKeepsRoomHere(worlds: seq<World>, steps: seq<Step>, i: nat)
    requires IsRun(worlds, steps) && 0 < i <= |steps| && Start(worlds[0]) && Roomy(worlds[i - 1])
    ensures Roomy(worlds[i])
  {
    hide Roomy, Sane, Start;
    RunKeepsSane(worlds, steps, i - 1);
    StepKeepsRoom(DoneIds(worlds[0].ledger.logs), worlds[0].ledger.totals, worlds[i - 1], steps[i - 1]);
  }

  lemma RoomAddsUp(w: World)
    requires Roomy(w) && w.ledger.totals.Keys <= w.ledger.accounts
    ensures AllAddUp(w)
  {
    hide PayableOf;
    forall a | a in w.ledger.totals ensures AddsUp(w.ledger.totals[a]) {
      assert RoomFor(w.ledger, a);
    }
  }

  // ---------------------------------------------------------------- without room the counts break

  /** Too few requests for the account's priced and priceable rows. */
  predicate TooFew(l: Ledger, account: nat) {
    && account in l.totals && l.totals[account].unpriced >= 0
    && var t := l.totals[account];
    t.requests < t.charged.complete + t.charged.partial + |PayableOf(l.logs, account)|
  }

  lemma {:induction false} SmallestPending(ids: set<nat>) returns (id: nat)
    requires ids != {}
    ensures id in ids && forall x | x in ids :: id <= x
    decreases ids
  {
    id :| id in ids;
    if ids != {id} {
      var least := SmallestPending(ids - {id});
      assert forall x | x in ids :: x == id || x in ids - {id};
      id := if least < id then least else id;
    }
  }

  lemma ChargeFits(model: Option<string>, usage: Usage)
    ensures FitsCharge(ChargeOf(model, usage))
  {
    hide EstimateCost;
  }

  lemma ZeroFits()
    ensures FitsCharge(ZERO) && forall c: Charge :: Plus(ZERO, c) == c
  {}

  lemma OneFits(e: Entry, model: Option<string>, usage: Usage)
    requires e.charge == ChargeOf(model, usage)
    ensures Fits([e])
  {
    ChargeFits(model, usage);
    ZeroFits();
    hide ChargeOf, FitsCharge, Plus;
    forall a: nat ensures FitsCharge(Sum([e], a)) {
      SumStep([], e, a);
      assert [] + [e] == [e] && Sum([], a) == ZERO;
    }
  }

  /** The ledger after a batch of one. */
  lemma BatchOfOne(l: Ledger, id: nat)
    requires IsPending(l.logs, id)
    ensures
      var r := SelectedAt(l.logs, id);
      var e := Entry(id, r.account, ChargeOf(r.model, r.usage));
      && PriceRows(l.logs, [r]) == (l.logs[id := l.logs[id].(cost := Some(CostOf(r.model, r.usage)))], [e])
      && CommitBatch(l, [r]) == Ok(l.(logs := PriceRows(l.logs, [r]).0, totals := CreditAll(l.totals, [e])))
  {
    var r := SelectedAt(l.logs, id);
    var e := Entry(id, r.account, ChargeOf(r.model, r.usage));
    hide ChargeOf, CostOf;
    assert [r][..0] == [] && PriceRows(l.logs, []) == (l.logs, []);
    assert PriceRows(l.logs, [r]).1 == [e];
    OneFits(e, r.model, r.usage);
    hide Fits, CreditAll;
  }

  lemma CreditOfOne(totals: map<nat, Totals>, e: Entry, account: nat)
    requires account in totals && 0 <= totals[account].unpriced
    ensures
      var t, now := totals[account], CreditAll(totals, [e])[account];
      var added := if e.account == Some(account) then e.charge else ZERO;
      && now.requests == t.requests && now.unpriced >= 0
      && now.charged == Plus(t.charged, added)
  {
    SumStep([], e, account);
    assert [] + [e] == [e] && e in [e];
    assert Sum([], account) == ZERO;
  }

  lemma OneKeepsTooFew(l: Ledger, id: nat, account: nat)
    requires IsPending(l.logs, id) && TooFew(l, account)
    ensures
      var after := CommitBatch(l, [SelectedAt(l.logs, id)]);
      && after.Ok? && TooFew(after.value, account)
      && PendingIds(after.value.logs) == PendingIds(l.logs) - {id}
  {
    var r := SelectedAt(l.logs, id);
    var e := Entry(id, r.account, ChargeOf(r.model, r.usage));
    BatchOfOne(l, id);
    CreditOfOne(l.totals, e, account);
    PayableLosesOne(l.logs, r, account);
    hide ChargeOf, CostOf, PriceRows, CommitBatch, CreditAll, PayableOf;
  }

  lemma OnlyPendingPayable(logs: map<nat, Row>, account: nat)
    requires PendingIds(logs) == {}
    ensures PayableOf(logs, account) == {}
  {
    forall id | id in PayableOf(logs, account) ensures id in PendingIds(logs) {}
  }

  lemma SmallestIsSelection(logs: map<nat, Row>, id: nat)
    requires id in PendingIds(logs) && forall x | x in PendingIds(logs) :: id <= x
    ensures IsSelection(logs, Clamp(1), [SelectedAt(logs, id)])
  {
    var rows := [SelectedAt(logs, id)];
    assert rows[0] in rows;
    assert IdsOf(rows) == {id};
    forall x | IsPending(logs, x) && x !in IdsOf(rows) ensures forall r | r in rows :: r.id < x {
      assert x in PendingIds(logs);
    }
  }

  /** Selecting one row and committing it. */
  lemma TwoSteps(w: World, id: nat) returns (selected: World, committed: World, first: Step, second: Step)
    requires IsPending(w.ledger.logs, id) && IsSelection(w.ledger.logs, Clamp(1), [SelectedAt(w.ledger.logs, id)])
    requires CommitBatch(w.ledger, [SelectedAt(w.ledger.logs, id)]).Ok?
    ensures Enabled(w, first) && selected == Next(w, first) && Enabled(selected, second)
        && committed == Next(selected, second)
    ensures committed.ledger == CommitBatch(w.ledger, [SelectedAt(w.ledger.logs, id)]).value
  {
    var rows := [SelectedAt(w.ledger.logs, id)];
    first, second := Select(rows, 1), Commit(|w.batches|);
    hide IsSelection, CommitBatch, PriceRows, ReachedAll;
    selected := Next(w, first);
    assert selected.batches[|w.batches|] == rows;
    committed := Next(selected, second);
  }

  /** Pricing the backlog row by row ends with counts that do not add up. */
  lemma {:induction false} BacklogBreaks(w: World, account: nat) returns (worlds: seq<World>, steps: seq<Step>)
    requires TooFew(w.ledger, account)
    ensures IsRun(worlds, steps) && worlds[0] == w && !KeepsAddingUp(worlds)
    decreases |PendingIds(w.ledger.logs)|
  {
    hide PendingIds, PayableOf, IsSelection, CommitBatch, Next, Enabled;
    if PendingIds(w.ledger.logs) == {} {
      OnlyPendingPayable(w.ledger.logs, account);
      worlds, steps := [w], [];
      assert !AddsUp(w.ledger.totals[account]) && !AllAddUp(worlds[0]);
    } else {
      var id := SmallestPending(PendingIds(w.ledger.logs));
      PendingMember(w.ledger.logs, id);
      SmallestIsSelection(w.ledger.logs, id);
      OneKeepsTooFew(w.ledger, id, account);
      var selected, committed, first, second := TwoSteps(w, id);
      var rest, more := BacklogBreaks(committed, account);
      worlds, steps := [w, selected] + rest, [first, second] + more;
      RunPrepended(w, selected, first, second, rest, more);
      StillBreaks([w, selected], rest);
    }
  }

  lemma StillBreaks(front: seq<World>, rest: seq<World>)
    requires !KeepsAddingUp(rest)
    ensures !KeepsAddingUp(front + rest)
  {
    hide AllAddUp;
    var i :| 0 <= i < |rest| && !AllAddUp(rest[i]);
    assert (front + rest)[|front| + i] == rest[i];
  }

  lemma PendingMember(logs: map<nat, Row>, id: nat)
    ensures id in PendingIds(logs) <==> IsPending(logs, id)
  {}

  lemma RunPrepended(w: World, selected: World, first: Step, second: Step, rest: seq<World>, more: seq<Step>)
    requires IsRun(rest, more) && Enabled(w, first) && selected == Next(w, first)
    requires Enabled(selected, second) && rest[0] == Next(selected, second)
    ensures IsRun([w, selected] + rest, [first, second] + more)
  {
    hide Next, Enabled;
    var worlds, steps := [w, selected] + rest, [first, second] + more;
    forall i | 0 <= i < |steps| ensures Enabled(worlds[i], steps[i]) && worlds[i + 1] == Next(worlds[i], steps[i]) {
      if i >= 2 {
        assert worlds[i] == rest[i - 2] && worlds[i + 1] == rest[i - 1] && steps[i] == more[i - 2];
      }
    }
  }

  // ---------------------------------------------------------------- main result

  ghost predicate KeepsAddingUp(worlds: seq<World>) { forall i | 0 <= i < |worlds| :: AllAddUp(worlds[i]) }

  /** Every run from `w` keeps the counts of every account adding up. */
  ghost predicate AlwaysAddsUp(w: World) {
    forall worlds, steps | IsRun(worlds, steps) && worlds[0] == w :: KeepsAddingUp(worlds)
  }

  lemma WithoutTotals(w: World, account: nat) returns (worlds: seq<World>, steps: seq<Step>)
    requires account in w.ledger.accounts && account !in w.ledger.totals && PayableOf(w.ledger.logs, account) != {}
    ensures IsRun(worlds, steps) && worlds[0] == w && !KeepsAddingUp(worlds)
  {
    hide PayableOf;
    var first := EnsureTotals(account);
    var started := Next(w, first);
    assert |PayableOf(w.ledger.logs, account)| > 0;
    var rest, more := BacklogBreaks(started, account);
    worlds, steps := [w] + rest, [first] + more;
    StillBreaks([w], rest);
    hide Next, KeepsAddingUp;
    forall i | 0 <= i < |steps| ensures Enabled(worlds[i], steps[i]) && worlds[i + 1] == Next(worlds[i], steps[i]) {
      if i >= 1 {
        assert worlds[i] == rest[i - 1] && worlds[i + 1] == rest[i] && steps[i] == more[i - 1];
      }
    }
  }

  /**
    From a ledger whose counts are not negative, complete, partial and unpriced add up to the
    requests in every state of every run, if and only if they do at the start and each account's
    requests have room for its priced rows and its pending rows that can be priced.
   */
  lemma CountsAddUpForEver(w: World)
    requires Start(w) && forall a | a in w.ledger.totals :: w.ledger.totals[a].unpriced >= 0
    ensures AlwaysAddsUp(w) <==> Roomy(w)
  {
    hide PayableOf, Keyed, Enabled, Next;
    if Roomy(w) {
      forall worlds, steps | IsRun(worlds, steps) && worlds[0] == w ensures KeepsAddingUp(worlds) {
        forall i | 0 <= i < |worlds| ensures AllAddUp(worlds[i]) {
          RunKeepsRoom(worlds, steps, i);
        }
      }
    } else {
      var worlds, steps := BreakingRun(w);
      assert IsRun(worlds, steps) && worlds[0] == w && !KeepsAddingUp(worlds);
    }
  }

  lemma BreakingRun(w: World) returns (worlds: seq<World>, steps: seq<Step>)
    requires Start(w) && !Roomy(w) && forall a | a in w.ledger.totals :: w.ledger.totals[a].unpriced >= 0
    ensures IsRun(worlds, steps) && worlds[0] == w && !KeepsAddingUp(worlds)
  {
    hide PayableOf, Keyed, Enabled, Next, IsRun;
    var a :| a in w.ledger.accounts && !RoomFor(w.ledger, a);
    if a !in w.ledger.totals {
      worlds, steps := WithoutTotals(w, a);
    } else if AddsUp(w.ledger.totals[a]) {
      worlds, steps := BacklogBreaks(w, a);
    } else {
      worlds, steps := [w], [];
      NoStepRun(w);
      assert !AllAddUp(worlds[0]);
    }
  }

  lemma NoStepRun(w: World)
    ensures IsRun([w], [])
  {}
}
