/** Exactly-once accounting over every interleaving of the ledger's steps. */
module CostRuns {
  import opened Base
  import opened Pricing
  import opened CostLedger

  // ---------------------------------------------------------------- sums

  lemma SumStep(entries: seq<Entry>, e: Entry, account: nat)
    ensures Sum(entries + [e], account) ==
            if e.account == Some(account) then Plus(Sum(entries, account), e.charge) else Sum(entries, account)
  {
    assert (entries + [e])[..|entries|] == entries;
  }

  lemma {:induction false} SumAppend(a: seq<Entry>, b: seq<Entry>, account: nat)
    ensures Sum(a + b, account) == Plus(Sum(a, account), Sum(b, account))
  {
    if b == [] {
      assert a + b == a;
    } else {
      var init, e := b[..|b| - 1], b[|b| - 1];
      assert b == init + [e] && a + b == (a + init) + [e];
      SumAppend(a, init, account);
      SumStep(init, e, account);
      SumStep(a + init, e, account);
      hide Sum;
    }
  }

  lemma {:induction false} SumOrdered(entries: seq<Entry>, account: nat)
    requires forall e | e in entries :: 0 <= e.charge.lower <= e.charge.upper
    ensures 0 <= Sum(entries, account).lower <= Sum(entries, account).upper
  {
    if entries != [] {
      SumOrdered(entries[..|entries| - 1], account);
    }
  }

  lemma {:induction false} SumOfOthers(entries: seq<Entry>, account: nat)
    requires !Touches(entries, account)
    ensures Sum(entries, account) == ZERO
  {
    if entries != [] {
      var init := entries[..|entries| - 1];
      assert entries[|entries| - 1] in entries;
      assert !Touches(init, account) by {
        assert forall e | e in init :: e in entries;
      }
      SumOfOthers(init, account);
    }
  }

  lemma {:induction false} ReachedSum(totals: map<nat, Totals>, entries: seq<Entry>, account: nat)
    requires account in totals
    ensures Sum(ReachedAll(totals, entries), account) == Sum(entries, account)
  {
    if entries != [] {
      ReachedSum(totals, entries[..|entries| - 1], account);
    }
  }

  lemma {:induction false} ReachedIds(totals: map<nat, Totals>, entries: seq<Entry>)
    ensures |ReachedAll(totals, entries)| == |entries|
    ensures forall i | 0 <= i < |entries| :: ReachedAll(totals, entries)[i] == Reached(totals, entries[i])
  {
    if entries != [] {
      ReachedIds(totals, entries[..|entries| - 1]);
    }
  }

  // ---------------------------------------------------------------- one batch

  predicate UniqueIds(entries: seq<Entry>) { forall i, j | 0 <= i < j < |entries| :: entries[i].id != entries[j].id }

  ghost predicate PricedOnce(logs: map<nat, Row>, after: map<nat, Row>, entries: seq<Entry>) {
    && after.Keys == logs.Keys
    && UniqueIds(entries)
    && (forall e | e in entries :: IsPending(logs, e.id) && !IsPending(after, e.id))
    && (forall id | id in logs && !IsPending(logs, id) :: after[id] == logs[id])
    && (forall id | IsPending(logs, id) ::
          after[id].(cost := None) == logs[id] && (after[id].cost.Some? ==> exists e | e in entries :: e.id == id))
  }

  lemma PricedOnceStep(logs: map<nat, Row>, before: map<nat, Row>, entries: seq<Entry>, e: Entry, cost: Estimate)
    requires PricedOnce(logs, before, entries) && IsPending(before, e.id)
    ensures PricedOnce(logs, before[e.id := before[e.id].(cost := Some(cost))], entries + [e])
  {
    var after, all := before[e.id := before[e.id].(cost := Some(cost))], entries + [e];
    assert all[|entries|] == e;
    forall i, j | 0 <= i < j < |all| ensures all[i].id != all[j].id {
      assert all[i] in entries;
    }
    forall id | IsPending(logs, id) && after[id].cost.Some? ensures exists x | x in all :: x.id == id {
      if id == e.id {
        assert e in all;
      } else {
        var x :| x in entries && x.id == id;
        assert x in all;
      }
    }
  }

  /** Every pending row of the batch is priced, once, and nothing else is. */
  lemma {:induction false} PriceOnce(logs: map<nat, Row>, rows: seq<Selected>)
    ensures PricedOnce(logs, PriceRows(logs, rows).0, PriceRows(logs, rows).1)
    ensures forall r | r in rows :: !IsPending(PriceRows(logs, rows).0, r.id)
    ensures forall e | e in PriceRows(logs, rows).1 ::
              exists r | r in rows :: r.id == e.id && r.account == e.account && e.charge == ChargeOf(r.model, r.usage)
  {
    hide ChargeOf, CostOf;
    if rows != [] {
      var init, r := rows[..|rows| - 1], rows[|rows| - 1];
      assert rows == init + [r];
      PriceOnce(logs, init);
      var (before, entries) := PriceRows(logs, init);
      if IsPending(before, r.id) {
        PricedOnceStep(logs, before, entries, Entry(r.id, r.account, ChargeOf(r.model, r.usage)),
            CostOf(r.model, r.usage));
      }
      hide PricedOnce;
    }
  }

  ghost predicate Genuine(logs: map<nat, Row>, deleted: set<nat>, r: Selected) {
    IsPending(logs, r.id) ==>
      && logs[r.id].model == r.model
      && logs[r.id].usage == r.usage
      && (|| logs[r.id].account == r.account
          || (logs[r.id].account.None? && r.account.Some? && r.account.value in deleted))
  }

  /** A priced row takes its own estimate. */
  lemma {:induction false} PricedAsSelected(logs: map<nat, Row>, deleted: set<nat>, rows: seq<Selected>, id: nat)
    requires forall r | r in rows :: Genuine(logs, deleted, r)
    requires IsPending(logs, id)
    ensures id in PriceRows(logs, rows).0
    ensures
      var row := PriceRows(logs, rows).0[id];
      row.(cost := None) == logs[id] && (row.cost.Some? ==> row.cost.value == CostOf(row.model, row.usage))
  {
    hide ChargeOf, CostOf;
    if rows != [] {
      PricedAsSelected(logs, deleted, rows[..|rows| - 1], id);
      assert Genuine(logs, deleted, rows[|rows| - 1]);
    }
  }

  lemma PendingLosesOne(logs: map<nat, Row>, r: Selected, account: nat)
    requires IsPending(logs, r.id) && (r.account == Some(account) <==> logs[r.id].account == Some(account))
    ensures
      var after := logs[r.id := logs[r.id].(cost := Some(CostOf(r.model, r.usage)))];
      |PendingOf(after, account)| + (if r.account == Some(account) then 1 else 0) == |PendingOf(logs, account)|
  {
    var after := logs[r.id := logs[r.id].(cost := Some(CostOf(r.model, r.usage)))];
    var gone := if r.account == Some(account) then {r.id} else {};
    assert PendingOf(after, account) == PendingOf(logs, account) - gone;
    assert gone <= PendingOf(logs, account);
  }

  /** What a batch adds to an account's priced counts is at most the pending rows the account loses. */
  lemma {:induction false} PricedFromPending(logs: map<nat, Row>, deleted: set<nat>, rows: seq<Selected>, account: nat)
    requires forall r | r in rows :: Genuine(logs, deleted, r)
    requires account !in deleted
    ensures
      var (after, entries) := PriceRows(logs, rows);
      var added := Sum(entries, account);
      added.complete + added.partial + |PendingOf(after, account)| <= |PendingOf(logs, account)|
  {
    if rows != [] {
      hide ChargeOf, CostOf;
      var init, r := rows[..|rows| - 1], rows[|rows| - 1];
      PricedFromPending(logs, deleted, init, account);
      PriceOnce(logs, init);
      var (before, entries) := PriceRows(logs, init);
      assert Genuine(logs, deleted, r);
      if IsPending(before, r.id) {
        hide PriceRows;
        PendingLosesOne(before, r, account);
        SumStep(entries, Entry(r.id, r.account, ChargeOf(r.model, r.usage)), account);
      }
    }
  }

  // ---------------------------------------------------------------- what every step keeps

  /** Keys and foreign keys: ids grow, totals and logs name accounts that exist, deleted accounts stay away. */
  ghost predicate Keyed(w: World) {
    var l := w.ledger;
    && l.totals.Keys <= l.accounts
    && l.accounts !! w.deleted
    && (forall id | id in l.logs :: id < l.nextId)
    && (forall id | id in l.logs && l.logs[id].account.Some? :: l.logs[id].account.value in l.accounts)
    && (forall b, r | b in w.batches && r in b :: r.id < l.nextId)
    && (forall e | e in w.journal :: e.id < l.nextId)
  }

  /** However old a selected batch is, its rows that are still pending read as they did, but for a deleted account. */
  ghost predicate Batched(w: World) {
    forall b, r | b in w.batches && r in b :: Genuine(w.ledger.logs, w.deleted, r)
  }

  ghost predicate TrueTo(w: World, e: Entry) {
    && !IsPending(w.ledger.logs, e.id)
    && (e.account.Some? ==> e.account.value in w.ledger.totals || e.account.value in w.deleted)
    && 0 <= e.charge.lower <= e.charge.upper
    && (e.id in w.ledger.logs ==>
          var row := w.ledger.logs[e.id];
          && row.cost == Some(CostOf(row.model, row.usage))
          && e.charge == ChargeOf(row.model, row.usage)
          && (e.account.Some? ==> row.account == e.account || e.account.value in w.deleted))
  }

  /** Each id is in the journal at most once, at the cost of its own row. */
  ghost predicate Journaled(w: World) {
    UniqueIds(w.journal) && forall e | e in w.journal :: TrueTo(w, e)
  }

  /** Rows priced since the start, `done` being those priced before it, are in the journal. */
  ghost predicate Recorded(done: set<nat>, w: World) {
    forall id | id in w.ledger.logs && w.ledger.logs[id].cost.Some?
        && id !in done :: exists e | e in w.journal :: e.id == id
  }

  function OpeningOf(opening: map<nat, Totals>, account: nat): Charge {
    if account in opening then opening[account].charged else ZERO
  }

  /** An account's totals are its opening totals plus the journal's entries for it. */
  ghost predicate Conserved(opening: map<nat, Totals>, w: World) {
    && (forall a | a in opening :: a in w.ledger.totals || a in w.deleted)
    && (forall a | a in w.ledger.totals ::
          w.ledger.totals[a].charged == Plus(OpeningOf(opening, a), Sum(w.journal, a)))
  }

  ghost predicate CoversFor(l: Ledger, account: nat) {
    if account in l.totals then
      var t := l.totals[account];
      && t.unpriced == t.requests - t.charged.complete - t.charged.partial
      && t.requests >= t.charged.complete + t.charged.partial + |PendingOf(l.logs, account)|
    else PendingOf(l.logs, account) == {}
  }

  /** The three counts add up to the requests, and the pending rows are among the unpriced. */
  ghost predicate Covered(w: World) {
    forall a | a in w.ledger.accounts :: CoversFor(w.ledger, a)
  }

  // ---------------------------------------------------------------- committing a batch

  ghost function AfterCommit(w: World, rows: seq<Selected>): World {
    var (logs, entries) := PriceRows(w.ledger.logs, rows);
    w.(ledger := w.ledger.(logs := logs, totals := CreditAll(w.ledger.totals, entries)),
       journal := w.journal + ReachedAll(w.ledger.totals, entries))
  }

  lemma CommitOutcome(w: World, step: Step)
    requires step.Commit? && Enabled(w, step)
    ensures Next(w, step) == w || Next(w, step) == AfterCommit(w, w.batches[step.batch])
  {
    hide PriceRows, Fits, ReachedAll, CreditAll;
  }

  lemma CommitKeyed(w: World, rows: seq<Selected>)
    requires Keyed(w) && Batched(w) && rows in w.batches
    ensures Keyed(AfterCommit(w, rows)) && Batched(AfterCommit(w, rows))
  {
    hide ChargeOf, CostOf, Sum, PriceRows;
    var (logs, entries) := PriceRows(w.ledger.logs, rows);
    PriceOnce(w.ledger.logs, rows);
    ReachedIds(w.ledger.totals, entries);
    forall id | id in logs ensures logs[id].account == w.ledger.logs[id].account {
      if IsPending(w.ledger.logs, id) {
        assert logs[id].(cost := None) == w.ledger.logs[id];
      }
    }
    hide PricedOnce, CreditAll, ReachedAll;
    assert forall e | e in ReachedAll(w.ledger.totals, entries) :: e.id < w.ledger.nextId;
    BatchesStayGenuine(w, rows);
  }

  lemma BatchesStayGenuine(w: World, rows: seq<Selected>)
    requires Batched(w)
    ensures Batched(AfterCommit(w, rows))
  {
    hide ChargeOf, CostOf, Sum, PriceRows;
    PriceOnce(w.ledger.logs, rows);
    forall b, r | b in w.batches && r in b ensures Genuine(AfterCommit(w, rows).ledger.logs, w.deleted, r) {
      assert Genuine(w.ledger.logs, w.deleted, r);
    }
  }

  /** Each entry comes from a row of the batch that was pending and no longer is. */
  lemma EntryOrigin(w: World, rows: seq<Selected>, e: Entry) returns (r: Selected)
    requires e in ReachedAll(w.ledger.totals, PriceRows(w.ledger.logs, rows).1)
    ensures IsPending(w.ledger.logs, e.id) && !IsPending(PriceRows(w.ledger.logs, rows).0, e.id)
    ensures r in rows && r.id == e.id && e.charge == ChargeOf(r.model, r.usage)
    ensures e.account.Some? ==> e.account == r.account && e.account.value in w.ledger.totals
    ensures PriceRows(w.ledger.logs, rows).0.Keys == w.ledger.logs.Keys
  {
    hide PriceRows, ChargeOf, CostOf, IsPending, ReachedAll;
    var l := w.ledger;
    var (logs, entries) := PriceRows(l.logs, rows);
    PriceOnce(l.logs, rows);
    ReachedIds(l.totals, entries);
    var i :| 0 <= i < |entries| && e == Reached(l.totals, entries[i]);
    assert entries[i] in entries;
    r :| r in rows && r.id == e.id && r.account == entries[i].account && e.charge == ChargeOf(r.model, r.usage);
  }

  /** The batch's entries are new: their rows were pending, and no journal entry's row is. */
  lemma NewEntriesTrue(w: World, rows: seq<Selected>, e: Entry)
    requires Batched(w) && rows in w.batches
    requires e in ReachedAll(w.ledger.totals, PriceRows(w.ledger.logs, rows).1)
    ensures IsPending(w.ledger.logs, e.id) && TrueTo(AfterCommit(w, rows), e)
  {
    hide PriceRows, ChargeOf, CostOf, ReachedAll, Credit, Sum;
    var r := EntryOrigin(w, rows, e);
    assert Genuine(w.ledger.logs, w.deleted, r);
    PricedAsSelected(w.ledger.logs, w.deleted, rows, e.id);
  }

  lemma OldEntriesTrue(w: World, rows: seq<Selected>, e: Entry)
    requires Journaled(w) && e in w.journal
    ensures TrueTo(AfterCommit(w, rows), e)
  {
    hide PriceRows, ChargeOf, CostOf, Sum, Credit, ReachedAll;
    PriceOnce(w.ledger.logs, rows);
    assert TrueTo(w, e);
  }

  lemma CommitJournaled(w: World, rows: seq<Selected>)
    requires Batched(w) && rows in w.batches && Journaled(w)
    ensures Journaled(AfterCommit(w, rows))
  {
    hide PriceRows, ReachedAll, TrueTo, ChargeOf, CostOf, IsPending;
    var after, l := AfterCommit(w, rows), w.ledger;
    var entries := PriceRows(l.logs, rows).1;
    PriceOnce(l.logs, rows);
    ReachedIds(l.totals, entries);
    var added := ReachedAll(l.totals, entries);
    assert UniqueIds(added);
    hide PricedOnce, UniqueIds;
    assert after.journal == w.journal + added;
    forall e | e in after.journal ensures TrueTo(after, e) && (e in w.journal || IsPending(l.logs, e.id)) {
      if e in w.journal { OldEntriesTrue(w, rows, e); } else { NewEntriesTrue(w, rows, e); }
    }
    UniqueAppend(w, added);
  }

  lemma UniqueAppend(w: World, added: seq<Entry>)
    requires Journaled(w) && UniqueIds(added) && forall e | e in added :: IsPending(w.ledger.logs, e.id)
    ensures UniqueIds(w.journal + added)
  {
    var all := w.journal + added;
    forall i, j | 0 <= i < j < |all| ensures all[i].id != all[j].id {
      if i < |w.journal| && |w.journal| <= j {
        assert TrueTo(w, w.journal[i]);
        assert all[j] in added;
      }
    }
  }

  lemma CommitRecorded(w: World, rows: seq<Selected>, done: set<nat>)
    requires Recorded(done, w)
    ensures Recorded(done, AfterCommit(w, rows))
  {
    hide PriceRows, ChargeOf, CostOf, Sum, Credit, ReachedAll;
    var after, l := AfterCommit(w, rows), w.ledger;
    var (logs, entries) := PriceRows(l.logs, rows);
    PriceOnce(l.logs, rows);
    ReachedIds(l.totals, entries);
    forall id | id in logs && logs[id].cost.Some? && id !in done ensures exists e | e in after.journal :: e.id == id {
      if IsPending(l.logs, id) {
        var e :| e in entries && e.id == id;
        var i :| 0 <= i < |entries| && entries[i] == e;
        assert ReachedAll(l.totals, entries)[i] in after.journal;
      } else {
        var e :| e in w.journal && e.id == id;
        assert e in after.journal;
      }
    }
  }

  lemma CommitConserved(w: World, rows: seq<Selected>, opening: map<nat, Totals>)
    requires Conserved(opening, w)
    ensures Conserved(opening, AfterCommit(w, rows))
  {
    hide PriceRows, Sum, ReachedAll, Plus;
    forall a | a in w.ledger.totals
      ensures AfterCommit(w, rows).ledger.totals[a].charged
          == Plus(OpeningOf(opening, a), Sum(AfterCommit(w, rows).journal, a))
    {
      CommitConservedFor(w, rows, opening, a);
    }
  }

  lemma PlusAssociates(a: Charge, b: Charge, c: Charge)
    ensures Plus(Plus(a, b), c) == Plus(a, Plus(b, c))
    ensures Plus(a, ZERO) == a
  {}

  lemma CommitConservedFor(w: World, rows: seq<Selected>, opening: map<nat, Totals>, a: nat)
    requires Conserved(opening, w) && a in w.ledger.totals
    ensures a in AfterCommit(w, rows).ledger.totals
    ensures AfterCommit(w, rows).ledger.totals[a].charged
        == Plus(OpeningOf(opening, a), Sum(AfterCommit(w, rows).journal, a))
  {
    hide PriceRows, Sum, ReachedAll, Plus;
    var entries := PriceRows(w.ledger.logs, rows).1;
    ReachedSum(w.ledger.totals, entries, a);
    SumAppend(w.journal, ReachedAll(w.ledger.totals, entries), a);
    PlusAssociates(OpeningOf(opening, a), Sum(w.journal, a), Sum(entries, a));
    if !Touches(entries, a) {
      SumOfOthers(entries, a);
      PlusAssociates(w.ledger.totals[a].charged, ZERO, ZERO);
    }
  }

  lemma CommitCovered(w: World, rows: seq<Selected>)
    requires Keyed(w) && Batched(w) && rows in w.batches && Covered(w)
    ensures Covered(AfterCommit(w, rows))
  {
    hide PriceRows, Sum;
    var after, l := AfterCommit(w, rows), w.ledger;
    var entries := PriceRows(l.logs, rows).1;
    forall a | a in l.accounts ensures CoversFor(after.ledger, a) {
      assert CoversFor(l, a);
      PricedFromPending(l.logs, w.deleted, rows, a);
      SumNotNegative(w, rows, a);
      if !Touches(entries, a) { SumOfOthers(entries, a); }
      hide PendingOf;
    }
  }

  lemma {:induction false} SumNotNegative(w: World, rows: seq<Selected>, account: nat)
    ensures
      var c := Sum(PriceRows(w.ledger.logs, rows).1, account);
      0 <= c.complete && 0 <= c.partial
  {
    if rows != [] {
      hide ChargeOf, CostOf;
      var init, r := rows[..|rows| - 1], rows[|rows| - 1];
      SumNotNegative(w, init, account);
      SumStep(PriceRows(w.ledger.logs, init).1, Entry(r.id, r.account, ChargeOf(r.model, r.usage)), account);
    }
  }

  // ---------------------------------------------------------------- the other steps

  ghost predicate Sane(done: set<nat>, opening: map<nat, Totals>, w: World) {
    Keyed(w) && Batched(w) && Journaled(w) && Recorded(done, w) && Conserved(opening, w)
  }

  lemma CommitKeepsSane(done: set<nat>, opening: map<nat, Totals>, w: World, step: Step)
    requires step.Commit? && Enabled(w, step) && Sane(done, opening, w)
    ensures Sane(done, opening, Next(w, step))
  {
    hide Keyed, Batched, Journaled, Recorded, Conserved, AfterCommit, Next;
    var rows := w.batches[step.batch];
    CommitOutcome(w, step);
    CommitKeyed(w, rows);
    CommitJournaled(w, rows);
    CommitRecorded(w, rows, done);
    CommitConserved(w, rows, opening);
  }

  lemma InsertKeepsBooks(done: set<nat>, w: World, step: Step)
    requires step.Insert? && Keyed(w) && Batched(w) && Journaled(w) && Recorded(done, w)
    ensures
      var after := Next(w, step);
      Keyed(after) && Batched(after) && Journaled(after) && Recorded(done, after)
  {
    hide CostOf, Plus;
    var after := Next(w, step);
    if Log(w.ledger, step.owner, step.model, step.usage).Ok? {
      var e := after.journal[|w.journal|];
      assert after.journal == w.journal + [e];
      forall x | x in w.journal ensures TrueTo(after, x) {
        assert TrueTo(w, x);
      }
      assert TrueTo(after, e);
      forall b, r | b in after.batches && r in b ensures Genuine(after.ledger.logs, after.deleted, r) {
        assert Genuine(w.ledger.logs, w.deleted, r);
      }
      forall id | id in after.ledger.logs && after.ledger.logs[id].cost.Some? && id !in done
        ensures exists x | x in after.journal :: x.id == id
      {
        if id == w.ledger.nextId {
          assert e in after.journal;
        } else {
          var x :| x in w.journal && x.id == id;
          assert x in after.journal;
        }
      }
    }
  }

  lemma InsertConserves(opening: map<nat, Totals>, w: World, step: Step)
    requires step.Insert? && Conserved(opening, w)
    ensures Conserved(opening, Next(w, step))
  {
    hide Plus, ChargeOf, CostOf, Sum;
    var l, after := w.ledger, Next(w, step);
    if Log(l, step.owner, step.model, step.usage).Ok? {
      var e := Reached(l.totals, Entry(l.nextId, step.owner, ChargeOf(step.model, step.usage)));
      forall a | a in l.totals
        ensures after.ledger.totals[a].charged == Plus(OpeningOf(opening, a), Sum(after.journal, a))
      {
        SumStep(w.journal, e, a);
        PlusAssociates(OpeningOf(opening, a), Sum(w.journal, a), e.charge);
      }
    }
  }

  /** Selecting, pruning, deleting and adding accounts charge nothing. */
  lemma OthersKeepBooks(done: set<nat>, w: World, step: Step)
    requires !step.Insert? && !step.Commit? && Enabled(w, step)
    requires Keyed(w) && Batched(w) && Journaled(w) && Recorded(done, w)
    ensures
      var after := Next(w, step);
      Keyed(after) && Batched(after) && Journaled(after) && Recorded(done, after)
  {
    hide ChargeOf, CostOf;
    var after := Next(w, step);
    forall e | e in w.journal ensures TrueTo(after, e) {
      assert TrueTo(w, e);
    }
    forall b, r | b in after.batches && r in b ensures Genuine(after.ledger.logs, after.deleted, r) {
      assert b in w.batches ==> Genuine(w.ledger.logs, w.deleted, r);
    }
  }

  lemma OthersConserve(opening: map<nat, Totals>, w: World, step: Step)
    requires !step.Insert? && !step.Commit? && Enabled(w, step)
    requires Keyed(w) && Journaled(w) && Conserved(opening, w)
    ensures Conserved(opening, Next(w, step))
  {
    hide Sum, Plus;
    if step.EnsureTotals? && step.account !in w.ledger.totals {
      NothingCharged(w, step.account);
      PlusAssociates(ZERO, ZERO, ZERO);
    }
  }

  /** No entry names an account that has no totals yet. */
  lemma NothingCharged(w: World, account: nat)
    requires Journaled(w) && account !in w.ledger.totals && account !in w.deleted
    ensures Sum(w.journal, account) == ZERO
  {
    hide Sum, ChargeOf, CostOf;
    assert forall e | e in w.journal :: TrueTo(w, e);
    SumOfOthers(w.journal, account);
  }

  lemma StepKeepsSane(done: set<nat>, opening: map<nat, Totals>, w: World, step: Step)
    requires Enabled(w, step) && Sane(done, opening, w)
    ensures Sane(done, opening, Next(w, step))
  {
    hide Keyed, Batched, Journaled, Recorded, Conserved, Next, Enabled;
    if step.Commit? {
      CommitKeepsSane(done, opening, w, step);
    } else if step.Insert? {
      InsertKeepsBooks(done, w, step);
      InsertConserves(opening, w, step);
    } else {
      OthersKeepBooks(done, w, step);
      OthersConserve(opening, w, step);
    }
  }

  lemma InsertCovers(w: World, step: Step)
    requires step.Insert? && Keyed(w) && Covered(w)
    ensures Covered(Next(w, step))
  {
    var l, after := w.ledger, Next(w, step).ledger;
    var c := ChargeOf(step.model, step.usage);
    hide CostOf, ChargeOf;
    forall a | a in after.accounts ensures CoversFor(after, a) {
      assert CoversFor(l, a);
      assert PendingOf(after.logs, a) == PendingOf(l.logs, a);
    }
  }

  lemma OthersCover(w: World, step: Step)
    requires !step.Insert? && !step.Commit? && Enabled(w, step) && Keyed(w) && Covered(w)
    ensures Covered(Next(w, step))
  {
    var l, after := w.ledger, Next(w, step).ledger;
    forall a | a in after.accounts ensures CoversFor(after, a) {
      var was, now := PendingOf(l.logs, a), PendingOf(after.logs, a);
      assert now <= was;
      FewerPending(now, was);
      assert step.AddAccount? && a == step.account ==> now == {};
      assert a in l.accounts ==> CoversFor(l, a);
    }
  }

  lemma FewerPending(now: set<nat>, was: set<nat>)
    requires now <= was
    ensures |now| <= |was|
  {
    assert was == now + (was - now);
  }

  lemma StepKeepsCovered(done: set<nat>, opening: map<nat, Totals>, w: World, step: Step)
    requires Enabled(w, step) && Sane(done, opening, w) && Covered(w)
    ensures Covered(Next(w, step))
  {
    hide Covered, Next, AfterCommit;
    if step.Commit? {
      CommitOutcome(w, step);
      CommitCovered(w, w.batches[step.batch]);
    } else if step.Insert? {
      InsertCovers(w, step);
    } else {
      OthersCover(w, step);
    }
  }

  // ---------------------------------------------------------------- main results

  /** Any ledger whose keys are in order, before any batch is selected. */
  ghost predicate Start(w: World) {
    Keyed(w) && w.batches == [] && w.deleted == {} && w.journal == []
  }

  function DoneIds(logs: map<nat, Row>): set<nat> { set id | id in logs && logs[id].cost.Some? }

  lemma {:induction false} RunKeepsSane(worlds: seq<World>, steps: seq<Step>, i: nat)
    requires IsRun(worlds, steps) && i <= |steps| && Start(worlds[0])
    ensures Sane(DoneIds(worlds[0].ledger.logs), worlds[0].ledger.totals, worlds[i])
  {
    var done, opening := DoneIds(worlds[0].ledger.logs), worlds[0].ledger.totals;
    if i == 0 {
      assert forall a :: Sum([], a) == ZERO;
      assert Sane(done, opening, worlds[0]);
    } else {
      RunKeepsSane(worlds, steps, i - 1);
      hide Sane;
      StepKeepsSane(done, opening, worlds[i - 1], steps[i - 1]);
    }
  }

  ghost predicate ChargedOnce(w0: World, w: World) {
    && UniqueIds(w.journal)
    && (forall e | e in w.journal :: TrueTo(w, e))
    && (forall id | id in w.ledger.logs && w.ledger.logs[id].cost.Some?
        && !(id in w0.ledger.logs && w0.ledger.logs[id].cost.Some?) ::
          exists e | e in w.journal :: e.id == id)
    && (forall a | a in w.ledger.totals ::
          w.ledger.totals[a].charged == Plus(OpeningOf(w0.ledger.totals, a), Sum(w.journal, a)))
  }

  /**
   * However batches, new logs, pruning and account changes interleave, each row that was priced is in the journal
   * once, at its own estimate, and an account's totals are its opening totals plus its journal entries.
   */
  lemma ChargedExactlyOnce(worlds: seq<World>, steps: seq<Step>, i: nat)
    requires IsRun(worlds, steps) && i <= |steps| && Start(worlds[0])
    ensures ChargedOnce(worlds[0], worlds[i])
  {
    hide UniqueIds, TrueTo, Sum;
    RunKeepsSane(worlds, steps, i);
  }

  /** The lower total never passes the upper, for accounts whose totals did not start that way. */
  lemma LowerNeverExceedsUpper(worlds: seq<World>, steps: seq<Step>, i: nat, account: nat)
    requires IsRun(worlds, steps) && i <= |steps| && Start(worlds[0])
    requires account in worlds[i].ledger.totals
    requires account in worlds[0].ledger.totals ==>
               worlds[0].ledger.totals[account].charged.lower <= worlds[0].ledger.totals[account].charged.upper
    ensures worlds[i].ledger.totals[account].charged.lower <= worlds[i].ledger.totals[account].charged.upper
  {
    RunKeepsSane(worlds, steps, i);
    var w := worlds[i];
    forall e | e in w.journal ensures 0 <= e.charge.lower <= e.charge.upper {
      assert TrueTo(w, e);
    }
    hide Sum;
    SumOrdered(w.journal, account);
  }

  lemma {:induction false} RunKeepsCovered(worlds: seq<World>, steps: seq<Step>, i: nat)
    requires IsRun(worlds, steps) && i <= |steps| && Start(worlds[0]) && Covered(worlds[0])
    ensures Covered(worlds[i])
  {
    if i > 0 {
      RunKeepsCovered(worlds, steps, i - 1);
      RunKeepsSane(worlds, steps, i - 1);
      hide Covered, Sane;
      StepKeepsCovered(DoneIds(worlds[0].ledger.logs), worlds[0].ledger.totals, worlds[i - 1], steps[i - 1]);
    }
  }

  /**
   * If the request counts covered the priced and pending rows at the start, complete, partial and unpriced
   * always add up to the requests, and no batch's clamp at zero ever acts.
   */
  lemma CountsAddUp(worlds: seq<World>, steps: seq<Step>, i: nat, account: nat)
    requires IsRun(worlds, steps) && i <= |steps| && Start(worlds[0]) && Covered(worlds[0])
    requires account in worlds[i].ledger.totals
    ensures
      var t := worlds[i].ledger.totals[account];
      t.charged.complete + t.charged.partial + t.unpriced == t.requests
          && t.unpriced >= |PendingOf(worlds[i].ledger.logs, account)|
  {
    RunKeepsSane(worlds, steps, i);
    RunKeepsCovered(worlds, steps, i);
    assert CoversFor(worlds[i].ledger, account);
  }

  /** New logs arrive priced, so nothing ever becomes pending. */
  lemma PendingOnlyShrinks(w: World, step: Step)
    requires Enabled(w, step)
    ensures PendingIds(Next(w, step).ledger.logs) <= PendingIds(w.ledger.logs)
    ensures |w.batches| <= |Next(w, step).batches| && Next(w, step).batches[..|w.batches|] == w.batches
  {
    hide ChargeOf, CostOf;
    if step.Commit? {
      PriceOnce(w.ledger.logs, w.batches[step.batch]);
      hide PriceRows, Fits;
    }
  }

  lemma {:induction false} RunPendingShrinks(worlds: seq<World>, steps: seq<Step>, i: nat, j: nat)
    requires IsRun(worlds, steps) && i <= j <= |steps|
    ensures PendingIds(worlds[j].ledger.logs) <= PendingIds(worlds[i].ledger.logs)
    ensures |worlds[i].batches| <= |worlds[j].batches| && worlds[j].batches[..|worlds[i].batches|] == worlds[i].batches
  {
    if i < j {
      hide PendingIds;
      RunPendingShrinks(worlds, steps, i, j - 1);
      PendingOnlyShrinks(worlds[j - 1], steps[j - 1]);
      hide Next;
      var k := |worlds[i].batches|;
      assert worlds[j].batches[..k] == worlds[j].batches[..|worlds[j - 1].batches|][..k];
    }
  }

  lemma {:induction false} SelectedCount(rows: seq<Selected>)
    requires Ascending(rows)
    ensures |IdsOf(rows)| == |rows|
  {
    if rows != [] {
      var init, r := rows[..|rows| - 1], rows[|rows| - 1];
      SelectedCount(init);
      assert IdsOf(rows) == IdsOf(init) + {r.id};
      assert r.id !in IdsOf(init);
    }
  }

  /**
   * A batch that commits leaves none of the rows it selected pending, whoever else was at work in between:
   * with every batch that selects anything the backlog falls by at least the batch, so the backfill ends.
   */
  lemma BatchShrinksPending(worlds: seq<World>, steps: seq<Step>, i: nat, j: nat)
    requires IsRun(worlds, steps) && i < j < |steps|
    requires steps[i].Select? && steps[j] == Commit(|worlds[i].batches|)
    requires CommitBatch(worlds[j].ledger, steps[i].rows).Ok?
    ensures |PendingIds(worlds[j + 1].ledger.logs)| + |steps[i].rows| <= |PendingIds(worlds[i].ledger.logs)|
  {
    hide CommitBatch, Fits, PriceRows;
    var rows, k := steps[i].rows, |worlds[i].batches|;
    assert Enabled(worlds[i], steps[i]) && worlds[i + 1] == Next(worlds[i], steps[i]);
    RunPendingShrinks(worlds, steps, i, i + 1);
    RunPendingShrinks(worlds, steps, i + 1, j);
    RunPendingShrinks(worlds, steps, j, j + 1);
    assert worlds[i + 1].batches[k] == rows;
    assert worlds[j].batches[..k + 1][k] == rows;
    var before, after := PendingIds(worlds[i].ledger.logs), PendingIds(worlds[j + 1].ledger.logs);
    PriceOnce(worlds[j].ledger.logs, rows);
    CommitLogs(worlds[j].ledger, rows);
    assert worlds[j + 1] == Next(worlds[j], steps[j]);
    SelectedCount(rows);
    assert IdsOf(rows) <= before && IdsOf(rows) !! after;
    FewerPending(after + IdsOf(rows), before);
    assert |after + IdsOf(rows)| == |after| + |IdsOf(rows)|;
  }

  lemma CommitLogs(l: Ledger, rows: seq<Selected>)
    requires CommitBatch(l, rows).Ok?
    ensures CommitBatch(l, rows).value.logs == PriceRows(l.logs, rows).0
  {}

  /**
    Without that cover, a batch breaks the counts of an account it reaches exactly when it prices more
    rows than requests were counted.
   */
  lemma CountsAddUpExactly(l: Ledger, rows: seq<Selected>, account: nat)
    requires CommitBatch(l, rows).Ok? && account in l.totals && Touches(PriceRows(l.logs, rows).1, account)
    ensures
      var t, before, added := CommitBatch(l, rows).value.totals[account], l.totals[account],
          Sum(PriceRows(l.logs, rows).1, account);
      t.charged.complete + t.charged.partial + t.unpriced == t.requests
      <==> before.charged.complete + added.complete + before.charged.partial + added.partial <= before.requests
  {
    hide PriceRows, Sum, Fits;
  }

  /** One old log, made before requests were counted: an account with no requests counted and a row to price. */
  ghost predicate Uncovered(l: Ledger, r: Selected) {
    && r.id in l.logs && IsPending(l.logs, r.id) && r == SelectedAt(l.logs, r.id)
    && r.account == Some(7) && r.model == Some("gpt-5.6") && r.usage == Usage(Some(1), Some(1), Some(0), Some(0), None)
    && 7 in l.totals && l.totals[7] == NO_TOTALS
  }

  lemma SampleEntries(l: Ledger, r: Selected)
    requires Uncovered(l, r)
    ensures PriceRows(l.logs, [r]).1 == [Entry(r.id, Some(7), Charge(0, 0, 35_000, 35_000, 1, 0))]
  {
    assert [r][..0] == [] && PriceRows(l.logs, []) == (l.logs, []);
    assert CostOf(r.model, r.usage) == Priced(Complete, 35_000, 35_000);
    hide EstimateCost, CostOf;
  }

  lemma SampleSums(entries: seq<Entry>, id: nat, c: Charge)
    requires entries == [Entry(id, Some(7), c)] && FitsCharge(c)
    ensures Fits(entries) && Sum(entries, 7) == Plus(ZERO, c) && Touches(entries, 7)
  {
    forall a: nat ensures Sum(entries, a) == if a == 7 then Plus(ZERO, c) else ZERO {
      assert [] + [entries[0]] == entries;
      SumStep([], entries[0], a);
    }
    assert entries[0] in entries;
  }

  /** Pricing that log makes one complete request out of none, and the clamp hides the difference. */
  lemma UncoveredLogBreaksCounts(l: Ledger, r: Selected)
    requires Uncovered(l, r)
    ensures CommitBatch(l, [r]).Ok? && 7 in CommitBatch(l, [r]).value.totals
    ensures
      var t := CommitBatch(l, [r]).value.totals[7];
      t.requests == 0 && t.charged.complete == 1 && t.charged.partial == 0 && t.unpriced == 0
  {
    SampleEntries(l, r);
    hide PriceRows, Sum, Fits, Touches;
    SampleSums(PriceRows(l.logs, [r]).1, r.id, Charge(0, 0, 35_000, 35_000, 1, 0));
  }
}
