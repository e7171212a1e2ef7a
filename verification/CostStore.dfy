/** The tables of the cost ledger updated in place, transaction by transaction, against the step functions. */
module CostStore {
  import opened Base
  import opened Pricing
  import opened CostLedger
  import opened CostRuns

  /** Running checked sums of one batch, account by account. */
  type Deltas = map<nat, Charge>

  function CheckedPlus(a: Charge, b: Charge): Option<Charge> {
    if FitsCharge(Plus(a, b)) then Some(Plus(a, b)) else None
  }

  predicate SumsUp(deltas: Deltas, entries: seq<Entry>) {
    && (forall a | a in deltas :: Touches(entries, a) && deltas[a] == Sum(entries, a) && FitsCharge(deltas[a]))
    && (forall e | e in entries && e.account.Some? :: e.account.value in deltas)
  }

  predicate ChargesUp(c: Charge) {
    0 <= c.cached && 0 <= c.written && 0 <= c.lower && 0 <= c.upper && 0 <= c.complete && 0 <= c.partial
  }

  /** Charges are never negative, so a sum that does not fit stays that way. */
  lemma {:induction false} SumsOnlyGrow(logs: map<nat, Row>, rows: seq<Selected>, n: nat, account: nat)
    requires n <= |rows|
    ensures
      var now, end := Sum(PriceRows(logs, rows[..n]).1, account), Sum(PriceRows(logs, rows).1, account);
      FitsCharge(end) ==> FitsCharge(now)
    decreases |rows|
  {
    if n == |rows| {
      assert rows[..n] == rows;
    } else {
      var init, r := rows[..|rows| - 1], rows[|rows| - 1];
      assert init[..n] == rows[..n];
      SumsOnlyGrow(logs, init, n, account);
      var c := ChargeOf(r.model, r.usage);
      assert ChargesUp(c);
      SumStep(PriceRows(logs, init).1, Entry(r.id, r.account, c), account);
      hide ChargeOf, CostOf, Sum;
    }
  }

  lemma SumsFit(deltas: Deltas, entries: seq<Entry>)
    requires SumsUp(deltas, entries)
    ensures Fits(entries)
  {
    forall a: nat ensures FitsCharge(Sum(entries, a)) {
      if a !in deltas {
        assert !Touches(entries, a);
        SumOfOthers(entries, a);
      }
    }
  }

  lemma SumsUpStep(deltas: Deltas, entries: seq<Entry>, e: Entry)
    requires SumsUp(deltas, entries)
    requires e.account.Some?
    requires FitsCharge(Sum(entries + [e], e.account.value))
    ensures SumsUp(deltas[e.account.value := Sum(entries + [e], e.account.value)], entries + [e])
  {
    hide Sum, FitsCharge;
    var a := e.account.value;
    forall b | b in deltas && b != a ensures Touches(entries + [e], b) && deltas[b] == Sum(entries + [e], b) {
      SumStep(entries, e, b);
      var x :| x in entries && x.account == Some(b);
      assert x in entries + [e];
    }
    assert e in entries + [e];
  }

  lemma SumsUpSkip(deltas: Deltas, entries: seq<Entry>, e: Entry)
    requires SumsUp(deltas, entries) && e.account.None?
    ensures SumsUp(deltas, entries + [e])
  {
    hide Sum, FitsCharge;
    forall b | b in deltas ensures Touches(entries + [e], b) && deltas[b] == Sum(entries + [e], b) {
      SumStep(entries, e, b);
      var x :| x in entries && x.account == Some(b);
      assert x in entries + [e];
    }
  }

  /** `rows` holds the smallest pending ids, in order, and `left` the rest. */
  ghost predicate Split(logs: map<nat, Row>, rows: seq<Selected>, left: set<nat>) {
    && Ascending(rows) && AllPending(logs, rows)
    && left <= PendingIds(logs)
    && (forall id | IsPending(logs, id) && id !in left :: id in IdsOf(rows))
    && (forall id, r | id in left && r in rows :: r.id < id)
  }

  lemma SplitStep(logs: map<nat, Row>, rows: seq<Selected>, left: set<nat>, id: nat)
    requires Split(logs, rows, left) && id in left && forall x | x in left :: id <= x
    ensures Split(logs, rows + [SelectedAt(logs, id)], left - {id})
  {
    var now := rows + [SelectedAt(logs, id)];
    assert forall r | r in now :: r in rows || r == SelectedAt(logs, id);
    assert now[|rows|] in now;
    forall x | IsPending(logs, x) && x !in left - {id} ensures x in IdsOf(now) {
      if x != id {
        var r :| r in rows && r.id == x;
        assert r in now;
      }
    }
  }

  class Ledgers {
    var nextId: nat
    var logs: map<nat, Row>
    var accounts: set<nat>
    var totals: map<nat, Totals>

    ghost function Contents(): Ledger
      reads this
    { Ledger(nextId, logs, accounts, totals) }

    method LogRequest(account: Option<nat>, model: Option<string>, usage: Usage) returns (ok: bool)
      modifies this
      ensures ok == Log(old(Contents()), account, model, usage).Ok?
      ensures Contents() == if ok then Log(old(Contents()), account, model, usage).value else old(Contents())
    {
      var cost, charge := CostOf(model, usage), ChargeOf(model, usage);
      if account.Some? && account.value !in accounts {
        return false;
      }
      logs := logs[nextId := Row(account, model, usage, Some(cost))];
      nextId := nextId + 1;
      if account.Some? && account.value in totals {
        var t := totals[account.value];
        var unpriced := if cost.status.IsPriced() then 0 else 1;
        totals := totals[account.value := Totals(t.requests + 1, Plus(t.charged, charge), t.unpriced + unpriced)];
      }
      return true;
    }

    method SelectBatch(batchSize: int) returns (rows: seq<Selected>)
      ensures IsSelection(logs, Clamp(batchSize), rows)
      ensures rows == [] <==> PendingIds(logs) == {}
    {
      rows := [];
      var left := PendingIds(logs);
      while left != {} && |rows| < Clamp(batchSize)
        invariant Split(logs, rows, left) && |rows| <= Clamp(batchSize)
        invariant rows == [] ==> left == PendingIds(logs)
        decreases left
      {
        var id := Smallest(left);
        SplitStep(logs, rows, left, id);
        rows := rows + [SelectedAt(logs, id)];
        left := left - {id};
      }
      assert rows != [] ==> rows[0] in rows && rows[0].id in PendingIds(logs);
    }

    /** The guarded updates and their sums; nothing is kept of them when a sum overflows. */
    method PriceBatch(rows: seq<Selected>) returns (r: Result<(map<nat, Row>, Deltas, nat), ()>)
      ensures
        var (priced, entries) := PriceRows(logs, rows);
        && (r.Ok? <==> Fits(entries))
        && (r.Ok? ==> r.value.0 == priced && SumsUp(r.value.1, entries) && r.value.2 == |entries|)
    {
      hide ChargeOf, CostOf;
      var work, deltas, updated := logs, map[], 0;
      var i := 0;
      while i < |rows|
        invariant 0 <= i <= |rows|
        invariant work == PriceRows(logs, rows[..i]).0
        invariant SumsUp(deltas, PriceRows(logs, rows[..i]).1)
        invariant updated == |PriceRows(logs, rows[..i]).1|
      {
        var row := rows[i];
        assert rows[..i + 1][..i] == rows[..i];
        ghost var entries := PriceRows(logs, rows[..i]).1;
        var charge := ChargeOf(row.model, row.usage);
        ghost var e := Entry(row.id, row.account, charge);
        if IsPending(work, row.id) {
          work := work[row.id := work[row.id].(cost := Some(CostOf(row.model, row.usage)))];
          updated := updated + 1;
          assert PriceRows(logs, rows[..i + 1]) == (work, entries + [e]);
          if row.account.Some? {
            var a := row.account.value;
            SumStep(entries, e, a);
            NewAccountSum(deltas, entries, a);
            var sum := CheckedPlus(if a in deltas then deltas[a] else ZERO, charge);
            if sum.None? {
              SumsOnlyGrow(logs, rows, i + 1, a);
              assert !FitsCharge(Sum(PriceRows(logs, rows).1, a));
              return Err(());
            }
            SumsUpStep(deltas, entries, e);
            deltas := deltas[a := sum.value];
          } else {
            SumsUpSkip(deltas, entries, e);
          }
        }
        i := i + 1;
      }
      assert rows[..i] == rows;
      SumsFit(deltas, PriceRows(logs, rows).1);
      return Ok((work, deltas, updated));
    }

    method CommitBatch(rows: seq<Selected>) returns (r: Result<nat, ()>)
      modifies this
      ensures r.Ok? <==> CostLedger.CommitBatch(old(Contents()), rows).Ok?
      ensures Contents() == if r.Ok? then CostLedger.CommitBatch(old(Contents()), rows).value else old(Contents())
      ensures r.Ok? ==> r.value == |PriceRows(old(logs), rows).1|
    {
      var outcome := PriceBatch(rows);
      if outcome.Err? {
        return Err(());
      }
      var (priced, deltas, updated) := outcome.value;
      ghost var entries := PriceRows(logs, rows).1;
      var credited, left := totals, deltas.Keys;
      while left != {}
        invariant left <= deltas.Keys && credited.Keys == totals.Keys
        invariant forall a | a in totals ::
                    credited[a] == if a in deltas && a !in left then Credit(totals[a], deltas[a]) else totals[a]
        decreases left
      {
        var a :| a in left;
        if a in credited {
          credited := credited[a := Credit(credited[a], deltas[a])];
        }
        left := left - {a};
      }
      assert credited == CreditAll(totals, entries) by {
        forall a | a in totals ensures a in deltas <==> Touches(entries, a) {
        }
      }
      logs, totals := priced, credited;
      return Ok(updated);
    }

    /** Batch after batch until a selection is empty; `None` when a batch overflowed. */
    method Backfill() returns (total: Option<nat>)
      modifies this
      ensures accounts == old(accounts) && nextId == old(nextId) && logs.Keys == old(logs.Keys)
      ensures total.Some? ==> PendingIds(logs) == {} && total.value == |PendingIds(old(logs))|
    {
      var count := 0;
      while true
        invariant accounts == old(accounts) && nextId == old(nextId) && logs.Keys == old(logs.Keys)
        invariant count + |PendingIds(logs)| == |PendingIds(old(logs))|
        decreases |PendingIds(logs)|
      {
        var rows := SelectBatch(BATCH_SIZE);
        if rows == [] {
          return Some(count);
        }
        ghost var was := Contents();
        var updated := CommitBatch(rows);
        if updated.Err? {
          return None;
        }
        AllSelectedPriced(was, rows);
        count := count + updated.value;
      }
    }
  }

  /** Uninterrupted, a batch prices exactly what it selected. */
  lemma AllSelectedPriced(l: Ledger, rows: seq<Selected>)
    requires Ascending(rows) && AllPending(l.logs, rows) && rows != []
    ensures PriceRows(l.logs, rows).0.Keys == l.logs.Keys
    ensures |PendingIds(PriceRows(l.logs, rows).0)| + |PriceRows(l.logs, rows).1| == |PendingIds(l.logs)|
    ensures |PriceRows(l.logs, rows).1| > 0
  {
    hide ChargeOf, CostOf, PriceRows;
    var (after, entries) := PriceRows(l.logs, rows);
    PriceOnce(l.logs, rows);
    var ids := set e | e in entries :: e.id;
    EntryCount(entries);
    assert PendingIds(after) == PendingIds(l.logs) - ids;
    assert ids <= PendingIds(l.logs);
    assert rows[0] in rows;
    assert rows[0].id in PendingIds(l.logs) && rows[0].id !in PendingIds(after);
    assert rows[0].id in ids;
  }

  lemma {:induction false} EntryCount(entries: seq<Entry>)
    requires UniqueIds(entries)
    ensures |set e | e in entries :: e.id| == |entries|
  {
    if entries != [] {
      var init, last := entries[..|entries| - 1], entries[|entries| - 1];
      EntryCount(init);
      assert entries == init + [last];
      assert (set e | e in entries :: e.id) == (set e | e in init :: e.id) + {last.id};
      assert last.id !in (set e | e in init :: e.id);
    }
  }

  lemma NewAccountSum(deltas: Deltas, entries: seq<Entry>, account: nat)
    requires SumsUp(deltas, entries)
    ensures Sum(entries, account) == if account in deltas then deltas[account] else ZERO
  {
    if account !in deltas {
      assert !Touches(entries, account);
      SumOfOthers(entries, account);
    }
  }

  method Smallest(ids: set<nat>) returns (id: nat)
    requires ids != {}
    ensures id in ids && forall x | x in ids :: id <= x
  {
    id :| id in ids;
    var left := ids - {id};
    while left != {}
      invariant left <= ids && id in ids
      invariant forall x | x in ids && x !in left :: id <= x
      decreases left
    {
      var x :| x in left;
      if x < id { id := x; }
      left := left - {x};
    }
  }
}
