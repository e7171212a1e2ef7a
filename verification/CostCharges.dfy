/** What is charged for a row, what each transaction writes, and to whose account a charge goes. */
module CostCharges {
  import opened Base
  import opened Pricing
  import opened CostLedger
  import opened CostRuns

  /** The model a request is billed as: the one the response names, else the one that was asked for. */
  ghost function BilledAs(model: Option<string>, usage: Usage): Option<string> {
    match usage.effectiveModel case Some(m) => Some(m) case None => model
  }

  /**
    A row is charged at its published price: as one complete request when its counts are known, from the
    cheapest to the dearest price when only the cache-write count is missing, and at nothing otherwise.
   */
  lemma ChargedAtPrice(model: Option<string>, usage: Usage)
    ensures
      var c, billed := ChargeOf(model, usage), BilledAs(model, usage);
      var full := WriteCount(usage).Some? && Affordable(billed, usage, WriteCount(usage).value);
      var range := Counted(usage) && WriteCount(usage).None? && Affordable(billed, usage, Room(usage));
      && (c.complete == if full then 1 else 0) && (c.partial == if range then 1 else 0)
      && (full ==> c.lower == c.upper && c.lower as real == ExactNano(billed.value, usage, WriteCount(usage).value))
      && (range ==> c.lower as real == ExactNano(billed.value, usage, 0)
                    && c.upper as real == ExactNano(billed.value, usage, Room(usage)))
      && (!full && !range ==> c.lower == 0 && c.upper == 0)
  {
    var billed := BilledAs(model, usage);
    hide EstimateCost, ExactNano;
    CompleteExactly(billed, usage);
    RangeExactly(billed, usage);
    UnpricedExactly(billed, usage);
  }

  /** The cached and cache-write tokens of a row, as reported, but never less than nothing. */
  lemma TokensCharged(model: Option<string>, usage: Usage)
    ensures var c := ChargeOf(model, usage);
            && (usage.cached.Some? && usage.cached.value >= 0 ==> c.cached == usage.cached.value)
            && (usage.cached.None? || usage.cached.value < 0 ==> c.cached == 0)
            && (usage.cacheWrite.Some? && usage.cacheWrite.value >= 0 ==> c.written == usage.cacheWrite.value)
            && (usage.cacheWrite.None? || usage.cacheWrite.value < 0 ==> c.written == 0)
  {
    hide CostOf;
  }

  // ---------------------------------------------------------------- what a transaction writes

  /** Everything a logged request writes. */
  lemma LogLeaves(l: Ledger, account: Option<nat>, model: Option<string>, usage: Usage)
    ensures var known := forall a | account == Some(a) :: a in l.accounts;
            Log(l, account, model, usage).Ok? <==> known
    ensures Log(l, account, model, usage).Ok? ==>
              var after := Log(l, account, model, usage).value;
              && after.nextId == l.nextId + 1 && after.accounts == l.accounts
              && after.logs
                  == l.logs[l.nextId := Row(account, model, usage, Some(EstimateCost(BilledAs(model, usage), usage)))]
              && after.totals.Keys == l.totals.Keys
              && (forall a | a in l.totals && account != Some(a) :: after.totals[a] == l.totals[a])
              && (forall a | a in l.totals && account == Some(a) ::
                    var was, now := l.totals[a], after.totals[a];
                    && now.requests == was.requests + 1
                    && now.charged == Plus(was.charged, ChargeOf(model, usage))
                    && now.unpriced == was.unpriced
                       + if EstimateCost(BilledAs(model, usage), usage).lower.Some? then 0 else 1)
  {
    UnpricedExactly(BilledAs(model, usage), usage);
    hide EstimateCost, ChargeOf;
  }

  /** A charge is added column by column. */
  lemma PlusAdds(a: Charge, b: Charge)
    ensures var c := Plus(a, b);
            && c.cached == a.cached + b.cached && c.written == a.written + b.written
            && c.lower == a.lower + b.lower && c.upper == a.upper + b.upper
            && c.complete == a.complete + b.complete && c.partial == a.partial + b.partial
  {}

  /** What a batch may select at most: the size asked for, but at least one row and at most five hundred. */
  lemma ClampedExactly(batchSize: int, n: nat)
    ensures n <= Clamp(batchSize) <==> n <= 1 || (n <= batchSize && n <= 500)
  {}

  /** Everything a committed batch writes into the totals; its rows are those of `PriceOnce`. */
  lemma CommitLeaves(l: Ledger, rows: seq<Selected>)
    requires CommitBatch(l, rows).Ok?
    ensures var after, entries := CommitBatch(l, rows).value, PriceRows(l.logs, rows).1;
            && after.nextId == l.nextId && after.accounts == l.accounts && after.logs == PriceRows(l.logs, rows).0
            && after.totals.Keys == l.totals.Keys
            && (forall a | a in l.totals ::
                  var was, now := l.totals[a], after.totals[a];
                  && now.requests == was.requests && now.charged == Plus(was.charged, Sum(entries, a))
                  && ((forall e | e in entries :: e.account != Some(a)) ==> now == was))
  {
    hide PriceRows, Sum, Fits, Plus;
    var entries := PriceRows(l.logs, rows).1;
    forall a | a in l.totals && !Touches(entries, a)
      ensures Plus(l.totals[a].charged, Sum(entries, a)) == l.totals[a].charged
    {
      SumOfOthers(entries, a);
      PlusAssociates(l.totals[a].charged, ZERO, ZERO);
    }
  }

  /** A deleted account leaves its logs behind, without its name, and nothing else of it. */
  lemma DropLeaves(l: Ledger, account: nat)
    ensures var after := DropAccount(l, account);
            && after.nextId == l.nextId && after.accounts == l.accounts - {account}
            && after.totals.Keys == l.totals.Keys - {account}
            && (forall a | a in after.totals :: after.totals[a] == l.totals[a])
            && after.logs.Keys == l.logs.Keys
            && (forall id | id in l.logs ::
                  && after.logs[id].model == l.logs[id].model && after.logs[id].usage == l.logs[id].usage
                  && after.logs[id].cost == l.logs[id].cost && after.logs[id].account != Some(account)
                  && (l.logs[id].account != Some(account) ==> after.logs[id].account == l.logs[id].account))
  {}

  // ---------------------------------------------------------------- whose account is charged

  /** Every row of the account that was priced since the start is in the journal under the account. */
  ghost predicate Attributed(done: set<nat>, w: World, account: nat) {
    && account in w.ledger.totals
    && forall id | id in w.ledger.logs && w.ledger.logs[id].cost.Some? && id !in done
                   && w.ledger.logs[id].account == Some(account) ::
         exists e | e in w.journal :: e.id == id && e.account == Some(account)
  }

  lemma InsertAttributes(done: set<nat>, w: World, step: Step, account: nat)
    requires step.Insert? && Enabled(w, step) && Attributed(done, w, account)
    ensures Attributed(done, Next(w, step), account)
  {
    hide ChargeOf, CostOf, Plus;
    var after := Next(w, step);
    forall id | id in after.ledger.logs && after.ledger.logs[id].cost.Some? && id !in done
                && after.ledger.logs[id].account == Some(account)
      ensures exists e | e in after.journal :: e.id == id && e.account == Some(account)
    {
      if after != w && id == w.ledger.nextId {
        var e := after.journal[|after.journal| - 1];
        assert e in after.journal && e.id == id && e.account == Some(account);
      } else {
        var e :| e in w.journal && e.id == id && e.account == Some(account);
        assert e in after.journal;
      }
    }
  }

  /** A row that a batch prices while it belongs to the account is in the batch's entries under the account. */
  lemma EntryForRow(w: World, rows: seq<Selected>, id: nat, account: nat) returns (e: Entry)
    requires Batched(w) && rows in w.batches && account !in w.deleted && account in w.ledger.totals
    requires IsPending(w.ledger.logs, id) && w.ledger.logs[id].account == Some(account)
    requires id in PriceRows(w.ledger.logs, rows).0 && PriceRows(w.ledger.logs, rows).0[id].cost.Some?
    ensures e in ReachedAll(w.ledger.totals, PriceRows(w.ledger.logs, rows).1)
    ensures e.id == id && e.account == Some(account)
  {
    hide ChargeOf, CostOf;
    var entries := PriceRows(w.ledger.logs, rows).1;
    PriceOnce(w.ledger.logs, rows);
    hide PriceRows;
    var x :| x in entries && x.id == id;
    var r :| r in rows && r.id == x.id && r.account == x.account;
    assert Genuine(w.ledger.logs, w.deleted, r);
    ReachedIds(w.ledger.totals, entries);
    var i :| 0 <= i < |entries| && entries[i] == x;
    e := ReachedAll(w.ledger.totals, entries)[i];
  }

  lemma CommitAttributes(done: set<nat>, w: World, rows: seq<Selected>, account: nat)
    requires Batched(w) && rows in w.batches && account !in w.deleted && Attributed(done, w, account)
    ensures Attributed(done, AfterCommit(w, rows), account)
  {
    hide ChargeOf, CostOf;
    PriceOnce(w.ledger.logs, rows);
    var after := AfterCommit(w, rows);
    hide PriceRows, ReachedAll;
    forall id | id in after.ledger.logs && after.ledger.logs[id].cost.Some? && id !in done
                && after.ledger.logs[id].account == Some(account)
      ensures exists e | e in after.journal :: e.id == id && e.account == Some(account)
    {
      if IsPending(w.ledger.logs, id) {
        var e := EntryForRow(w, rows, id, account);
        assert e in after.journal;
      } else {
        var e :| e in w.journal && e.id == id && e.account == Some(account);
        assert e in after.journal;
      }
    }
  }

  lemma OthersAttribute(done: set<nat>, w: World, step: Step, account: nat)
    requires !step.Insert? && !step.Commit? && Enabled(w, step) && Attributed(done, w, account)
    requires account !in Next(w, step).deleted && w.ledger.totals.Keys <= w.ledger.accounts
    ensures Attributed(done, Next(w, step), account)
  {}

  lemma StepAttributes(done: set<nat>, opening: map<nat, Totals>, w: World, step: Step, account: nat)
    requires Enabled(w, step) && Sane(done, opening, w) && Attributed(done, w, account)
    requires account !in Next(w, step).deleted
    ensures Attributed(done, Next(w, step), account) && account !in w.deleted
  {
    assert Batched(w) && Keyed(w);
    assert account !in w.deleted by { hide PriceRows, CommitBatch, Log; }
    hide Sane, Attributed, Batched, AfterCommit, ChargeOf, CostOf;
    if step.Insert? {
      InsertAttributes(done, w, step, account);
    } else if step.Commit? {
      CommitOutcome(w, step);
      CommitAttributes(done, w, w.batches[step.batch], account);
    } else {
      OthersAttribute(done, w, step, account);
    }
  }

  lemma {:induction false} RunAttributes(worlds: seq<World>, steps: seq<Step>, i: nat, account: nat)
    requires IsRun(worlds, steps) && i <= |steps| && Start(worlds[0])
    requires account in worlds[0].ledger.totals && account !in worlds[i].deleted
    ensures Attributed(DoneIds(worlds[0].ledger.logs), worlds[i], account)
  {
    if i > 0 {
      RunKeepsSane(worlds, steps, i - 1);
      assert worlds[i] == Next(worlds[i - 1], steps[i - 1]);
      DeletedStays(worlds[i - 1], steps[i - 1], account);
      RunAttributes(worlds, steps, i - 1, account);
      hide Sane, Attributed, Next;
      StepAttributes(DoneIds(worlds[0].ledger.logs), worlds[0].ledger.totals, worlds[i - 1], steps[i - 1], account);
    }
  }

  lemma DeletedStays(w: World, step: Step, account: nat)
    requires Enabled(w, step) && account !in Next(w, step).deleted
    ensures account !in w.deleted
  {
    hide PriceRows, CommitBatch, Log;
  }

  /**
    Every row of an account that was priced since the start is charged to that account, once: the account's
    totals are its opening totals and the charges of the journal entries that name it, each such row has
    exactly one entry there, and an entry whose row is still kept is at the price of the row.
   */
  lemma ChargedToItsAccount(worlds: seq<World>, steps: seq<Step>, i: nat, account: nat)
    requires IsRun(worlds, steps) && i <= |steps| && Start(worlds[0])
    requires account in worlds[0].ledger.totals && account !in worlds[i].deleted
    ensures var w := worlds[i];
            && account in w.ledger.totals && UniqueIds(w.journal)
            && w.ledger.totals[account].charged
               == Plus(worlds[0].ledger.totals[account].charged, Sum(w.journal, account))
            && (forall id | id in w.ledger.logs && w.ledger.logs[id].account == Some(account)
                            && w.ledger.logs[id].cost.Some? && id !in DoneIds(worlds[0].ledger.logs) ::
                  exists e | e in w.journal :: e.id == id && e.account == Some(account))
            && (forall e | e in w.journal && e.account == Some(account) && e.id in w.ledger.logs ::
                  var row := w.ledger.logs[e.id];
                  row.account == Some(account) && e.charge == ChargeOf(row.model, row.usage))
  {
    RunAttributes(worlds, steps, i, account);
    RunKeepsSane(worlds, steps, i);
    hide Sum, ChargeOf, CostOf, UniqueIds;
    assert forall e | e in worlds[i].journal :: TrueTo(worlds[i], e);
  }
}
