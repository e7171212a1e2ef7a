/**
 * Cost accounting: request logs, the per-account totals they feed, and the batches that price old logs
 * while requests are logged, pruned and accounts deleted beside them.
 */
module CostLedger {
  import opened Base
  import opened Pricing

  const BATCH_SIZE: nat := 500

  /** A log row; `cost.None?` is a row that waits for the backfill. */
  datatype Row = Row(account: Option<nat>, model: Option<string>, usage: Usage, cost: Option<Estimate>)

  /** A pending row as one batch selected it. */
  datatype Selected = Selected(id: nat, account: Option<nat>, model: Option<string>, usage: Usage)

  /** What pricing one or more rows adds to an account. */
  datatype Charge = Charge(cached: int, written: int, lower: int, upper: int, complete: int, partial: int)

  datatype Totals = Totals(requests: int, charged: Charge, unpriced: int)

  datatype Ledger = Ledger(
    nextId: nat,
    logs: map<nat, Row>,
    accounts: set<nat>,
    totals: map<nat, Totals>)

  const ZERO := Charge(0, 0, 0, 0, 0, 0)
  const NO_TOTALS := Totals(0, ZERO, 0)

  function Plus(a: Charge, b: Charge): Charge {
    Charge(a.cached + b.cached, a.written + b.written, a.lower + b.lower,
           a.upper + b.upper, a.complete + b.complete, a.partial + b.partial)
  }

  predicate FitsCharge(c: Charge) {
    && c.cached <= I64_MAX && c.written <= I64_MAX && c.lower <= I64_MAX
    && c.upper <= I64_MAX && c.complete <= I64_MAX && c.partial <= I64_MAX
  }

  function OrZero(x: Option<i64>): int { if x.Some? then x.value else 0 }
  function AtLeastZero(x: int): nat { if x < 0 then 0 else x }

  function CostOf(model: Option<string>, usage: Usage): Estimate {
    EstimateCost(if usage.effectiveModel.Some? then usage.effectiveModel else model, usage)
  }

  function ChargeOf(model: Option<string>, usage: Usage): (c: Charge)
    ensures 0 <= c.cached && 0 <= c.written && 0 <= c.lower <= c.upper && 0 <= c.complete && 0 <= c.partial
    ensures c.complete + c.partial == if CostOf(model, usage).status.IsPriced() then 1 else 0
  {
    var cost := CostOf(model, usage);
    RangeOrdered(if usage.effectiveModel.Some? then usage.effectiveModel else model, usage);
    UnpricedExactly(if usage.effectiveModel.Some? then usage.effectiveModel else model, usage);
    Charge(AtLeastZero(OrZero(usage.cached)), AtLeastZero(OrZero(usage.cacheWrite)), OrZero(cost.lower),
        OrZero(cost.upper),
           if cost.status.Complete? then 1 else 0, if cost.status.MissingCacheWrite? then 1 else 0)
  }

  // ---------------------------------------------------------------- selecting and pricing a batch

  predicate IsPending(logs: map<nat, Row>, id: nat) { id in logs && logs[id].cost.None? }

  function PendingIds(logs: map<nat, Row>): set<nat> { set id | id in logs && logs[id].cost.None? }

  function PendingOf(logs: map<nat, Row>, account: nat): set<nat> {
    set id | id in logs && logs[id].cost.None? && logs[id].account == Some(account)
  }

  function Clamp(batchSize: int): nat {
    if batchSize < 1 then 1 else if batchSize > BATCH_SIZE then BATCH_SIZE else batchSize
  }

  function SelectedAt(logs: map<nat, Row>, id: nat): Selected
    requires id in logs
  { Selected(id, logs[id].account, logs[id].model, logs[id].usage) }

  predicate Ascending(rows: seq<Selected>) { forall i, j | 0 <= i < j < |rows| :: rows[i].id < rows[j].id }

  predicate AllPending(logs: map<nat, Row>, rows: seq<Selected>) {
    forall r | r in rows :: IsPending(logs, r.id) && r == SelectedAt(logs, r.id)
  }

  function IdsOf(rows: seq<Selected>): set<nat> { set r | r in rows :: r.id }

  /** `ORDER BY id LIMIT n` over the pending rows: the smallest ids, as many as there are up to `n`. */
  ghost predicate IsSelection(logs: map<nat, Row>, limit: nat, rows: seq<Selected>) {
    && Ascending(rows)
    && AllPending(logs, rows)
    && |rows| <= limit
    && (forall id | IsPending(logs, id) && id !in IdsOf(rows) :: |rows| == limit && forall r | r in rows :: r.id < id)
  }

  /** One row priced: which, for whom, and what was charged. */
  datatype Entry = Entry(id: nat, account: Option<nat>, charge: Charge)

  /** The guarded updates of a batch, in its order: a row that is gone or already priced is passed over. */
  function PriceRows(logs: map<nat, Row>, rows: seq<Selected>): (map<nat, Row>, seq<Entry>) {
    if rows == [] then (logs, [])
    else
      var (before, entries) := PriceRows(logs, rows[..|rows| - 1]);
      var r := rows[|rows| - 1];
      if IsPending(before, r.id) then
        (before[r.id := before[r.id].(cost := Some(CostOf(r.model, r.usage)))],
         entries + [Entry(r.id, r.account, ChargeOf(r.model, r.usage))])
      else (before, entries)
  }

  /** What a list of entries adds to one account. */
  function Sum(entries: seq<Entry>, account: nat): (c: Charge) {
    if entries == [] then ZERO
    else
      var rest := Sum(entries[..|entries| - 1], account);
      var e := entries[|entries| - 1];
      if e.account == Some(account) then Plus(rest, e.charge) else rest
  }

  predicate Touches(entries: seq<Entry>, account: nat) { exists e | e in entries :: e.account == Some(account) }

  /** The aggregate update of a batch; `unpriced` is recomputed and clamped at zero. */
  function Credit(t: Totals, c: Charge): Totals {
    var charged := Plus(t.charged, c);
    Totals(t.requests, charged, AtLeastZero(t.requests - charged.complete - charged.partial))
  }

  ghost predicate Fits(entries: seq<Entry>) { forall a: nat :: FitsCharge(Sum(entries, a)) }

  function CreditAll(totals: map<nat, Totals>, entries: seq<Entry>): map<nat, Totals> {
    map a | a in totals :: if Touches(entries, a) then Credit(totals[a], Sum(entries, a)) else totals[a]
  }

  // ---------------------------------------------------------------- steps

  datatype Step =
    | Insert(owner: Option<nat>, model: Option<string>, usage: Usage)
    | Select(rows: seq<Selected>, batchSize: int)
    | Commit(batch: nat)
    | Prune(ids: set<nat>)
    | DeleteAccount(account: nat)
    | AddAccount(account: nat)
    | EnsureTotals(account: nat)

  /**
   * The ledger, every batch selected so far (each may still be committed), the deleted accounts,
   * and the journal of what was priced, which exists for the proof only.
   */
  datatype World = World(ledger: Ledger, batches: seq<seq<Selected>>, deleted: set<nat>, journal: seq<Entry>)

  /** A new log is priced as it is written; a missing account fails its foreign key and writes nothing. */
  function Log(l: Ledger, account: Option<nat>, model: Option<string>, usage: Usage): Result<Ledger, ()> {
    if account.Some? && account.value !in l.accounts then Err(())
    else
      var row := Row(account, model, usage, Some(CostOf(model, usage)));
      var c := ChargeOf(model, usage);
      var written := l.(nextId := l.nextId + 1, logs := l.logs[l.nextId := row]);
      if account.None? || account.value !in l.totals then Ok(written)
      else
        var t := l.totals[account.value];
        var unpriced := if CostOf(model, usage).status.IsPriced() then 0 else 1;
        var counted := Totals(t.requests + 1, Plus(t.charged, c), t.unpriced + unpriced);
        Ok(written.(totals := l.totals[account.value := counted]))
  }

  /** An overflowing batch rolls back. */
  ghost function CommitBatch(l: Ledger, rows: seq<Selected>): Result<Ledger, ()> {
    var (logs, entries) := PriceRows(l.logs, rows);
    if Fits(entries) then Ok(l.(logs := logs, totals := CreditAll(l.totals, entries))) else Err(())
  }

  function DropRows(l: Ledger, ids: set<nat>): Ledger { l.(logs := l.logs - ids) }

  /** Logs keep their row and lose their account; the totals row goes. */
  function DropAccount(l: Ledger, account: nat): Ledger {
    l.(accounts := l.accounts - {account},
       totals := l.totals - {account},
       logs := map id | id in l.logs ::
         if l.logs[id].account == Some(account) then l.logs[id].(account := None) else l.logs[id])
  }

  /** Entries name the account whose totals they reached, if any. */
  function Reached(totals: map<nat, Totals>, e: Entry): Entry {
    if e.account.Some? && e.account.value in totals then e else e.(account := None)
  }

  function ReachedAll(totals: map<nat, Totals>, entries: seq<Entry>): seq<Entry> {
    if entries == [] then []
    else ReachedAll(totals, entries[..|entries| - 1]) + [Reached(totals, entries[|entries| - 1])]
  }

  ghost predicate Enabled(w: World, s: Step) {
    match s
    case Select(rows, batchSize) => IsSelection(w.ledger.logs, Clamp(batchSize), rows)
    case Commit(batch) => batch < |w.batches|
    case AddAccount(account) => account !in w.ledger.accounts && account !in w.deleted
    case EnsureTotals(account) => account in w.ledger.accounts
    case _ => true
  }

  ghost function Next(w: World, s: Step): World
    requires Enabled(w, s)
  {
    var l := w.ledger;
    match s
    case Insert(account, model, usage) =>
      (match Log(l, account, model, usage)
       case Ok(after) =>
         w.(ledger := after,
             journal := w.journal + [Reached(l.totals, Entry(l.nextId, account, ChargeOf(model, usage)))])
       case Err(_) => w)
    case Select(rows, _) => w.(batches := w.batches + [rows])
    case Commit(batch) =>
      (match CommitBatch(l, w.batches[batch])
       case Ok(after) =>
         w.(ledger := after, journal := w.journal + ReachedAll(l.totals, PriceRows(l.logs, w.batches[batch]).1))
       case Err(_) => w)
    case Prune(ids) => w.(ledger := DropRows(l, ids))
    case DeleteAccount(account) =>
      if account in l.accounts then w.(ledger := DropAccount(l, account), deleted := w.deleted + {account}) else w
    case AddAccount(account) => w.(ledger := l.(accounts := l.accounts + {account}))
    case EnsureTotals(account) =>
      if account in l.totals then w else w.(ledger := l.(totals := l.totals[account := NO_TOTALS]))
  }

  ghost predicate IsRun(worlds: seq<World>, steps: seq<Step>) {
    && |worlds| == |steps| + 1
    && forall i | 0 <= i < |steps| :: Enabled(worlds[i], steps[i]) && worlds[i + 1] == Next(worlds[i], steps[i])
  }
}
