/** Which account serves a request: quota pressure per account, in-flight load, and the order between candidates. */
module Scoring {
  import opened Base

  const UNKNOWN_PRESSURE: real := 100.0
  const INFLIGHT_PENALTY: real := 2.0
  const SKEW_SECONDS: real := 300.0
  const DAY_SECONDS: real := 86_400.0

  /** A time column: absent, unreadable, or a number of days. */
  datatype Time = Null | Unreadable | At(days: real)

  /** One stored quota window; a used percentage that is not a number reads as `None`. */
  datatype Window = Window(used: Option<real>, seconds: Option<int>, reset: Time, fetched: Time)

  datatype Clock = Clock(now: real, freshness: real)

  /** Telemetry is fresh for three refresh intervals, and for five minutes at least. */
  function ClockAt(now: real, refreshSeconds: nat): (c: Clock)
    ensures c.now == now && c.freshness >= 300.0 / DAY_SECONDS
  {
    var intervals := refreshSeconds * 3;
    var seconds := if intervals < 300 then 300 else if intervals > I64_MAX then I64_MAX else intervals;
    Clock(now, seconds as real / DAY_SECONDS)
  }

  datatype Kind = Unknown | Reset | Timed | Raw

  datatype Score = Score(pressure: real, quality: nat, used: real)

  function Min(a: real, b: real): real { if a <= b then a else b }
  function Max(a: real, b: real): real { if a <= b then b else a }

  /** The used percentage, forced into [0, 100]. */
  function Used(w: Window): Option<real> {
    if w.used.None? then None else Some(Min(100.0, Max(0.0, w.used.value)))
  }

  function Classify(w: Window, c: Clock): Kind {
    if w.used.None?
       || w.reset.Unreadable?
       || (w.seconds.Some? && w.seconds.value <= 0)
       || (w.reset.At? && w.seconds.Some?
           && w.reset.days > c.now + w.seconds.value as real / DAY_SECONDS + SKEW_SECONDS / DAY_SECONDS)
    then Unknown
    else if w.reset.At? && w.reset.days <= c.now && w.reset.days >= c.now - c.freshness then Reset
    else if w.reset.At? && w.reset.days < c.now - c.freshness then Unknown
    else if !w.fetched.At? || w.fetched.days < c.now - c.freshness
            || w.fetched.days > c.now + SKEW_SECONDS / DAY_SECONDS
    then Unknown
    else if w.reset.Null? || w.seconds.None? then Raw
    else Timed
  }

  /** The share of a window that is still to come, forced into [0, 1]. */
  function Remaining(reset: real, now: real, seconds: int): real
    requires seconds > 0
  { Min(1.0, Max(0.0, (reset - now) * DAY_SECONDS / seconds as real)) }

  function ScoreOf(w: Window, c: Clock): Score {
    match Classify(w, c)
    case Timed =>
      Score(Used(w).value - 100.0 * (1.0 - Remaining(w.reset.days, c.now, w.seconds.value)), 0, Used(w).value)
    case Raw => Score(Used(w).value, 0, Used(w).value)
    case Reset => Score(0.0, 1, 0.0)
    case Unknown => Score(UNKNOWN_PRESSURE, 2, UNKNOWN_PRESSURE)
  }

  /** Column by column, the worst window; an account with no window is unknown. */
  function Worst(windows: seq<Window>, c: Clock): Score {
    if windows == [] then Score(UNKNOWN_PRESSURE, 2, UNKNOWN_PRESSURE)
    else if |windows| == 1 then ScoreOf(windows[0], c)
    else
      var s, rest := ScoreOf(windows[0], c), Worst(windows[1..], c);
      var quality := if s.quality <= rest.quality then rest.quality else s.quality;
      Score(Max(s.pressure, rest.pressure), quality, Max(s.used, rest.used))
  }

  // ---------------------------------------------------------------- candidates

  datatype Account = Account(
    id: nat,
    active: bool,
    cooldown: Time,
    inflight: int,
    lastSelected: int,
    created: int,
    windows: seq<Window>)

  predicate Exhausted(w: Window, now: real) {
    w.used.Some? && w.used.value >= 100.0 && (!w.reset.At? || w.reset.days > now)
  }

  predicate Eligible(a: Account, now: real) {
    && a.active
    && (a.cooldown.Null? || (a.cooldown.At? && a.cooldown.days <= now))
    && !exists w | w in a.windows :: Exhausted(w, now)
  }

  function Load(a: Account): nat { if a.inflight < 0 then 0 else a.inflight }

  /** Six decimals, halves away from zero. */
  function Round6(x: real): real {
    if x >= 0.0 then (x * 1_000_000.0 + 0.5).Floor as real / 1_000_000.0
    else -((-x * 1_000_000.0 + 0.5).Floor as real / 1_000_000.0)
  }

  function Cost(a: Account, c: Clock): real {
    Round6(Worst(a.windows, c).pressure + INFLIGHT_PENALTY * Load(a) as real)
  }

  /** The columns that break ties by age and id; the id stands for the row id of the round-robin order too. */
  predicate OlderThan(a: Account, b: Account) {
    if a.lastSelected != b.lastSelected then a.lastSelected < b.lastSelected
    else if a.created != b.created then a.created < b.created
    else a.id < b.id
  }

  /** The order of the candidates, column after column. */
  predicate Before(weighted: bool, a: Account, b: Account, c: Clock) {
    if !weighted then OlderThan(a, b)
    else
      var s, t := Worst(a.windows, c), Worst(b.windows, c);
      if Cost(a, c) != Cost(b, c) then Cost(a, c) < Cost(b, c)
      else if s.quality != t.quality then s.quality < t.quality
      else if s.used != t.used then s.used < t.used
      else if Load(a) != Load(b) then Load(a) < Load(b)
      else OlderThan(a, b)
  }

  predicate Candidate(a: Account, excluded: set<nat>, now: real) { Eligible(a, now) && a.id !in excluded }

  /** The first candidate in that order. */
  function Choose(weighted: bool, accounts: seq<Account>, excluded: set<nat>, c: Clock): (r: Option<Account>)
    ensures r.Some? ==> r.value in accounts && Candidate(r.value, excluded, c.now)
  {
    if accounts == [] then None
    else
      var a, rest := accounts[0], Choose(weighted, accounts[1..], excluded, c);
      if !Candidate(a, excluded, c.now) then rest
      else if rest.None? || Before(weighted, a, rest.value, c) then Some(a)
      else rest
  }

  // ---------------------------------------------------------------- pressure and rounding

  lemma ScoreBounded(w: Window, c: Clock)
    ensures -100.0 <= ScoreOf(w, c).pressure <= 100.0
    ensures ScoreOf(w, c).quality == 2 ==> ScoreOf(w, c).pressure == 100.0
    ensures ScoreOf(w, c).quality <= 2
  {
    if Classify(w, c).Timed? {
      var share := Remaining(w.reset.days, c.now, w.seconds.value);
      assert 0.0 <= share <= 1.0;
      hide Remaining;
    }
  }

  /** An account's pressure lies in [-100, 100], and unknown telemetry always has the highest. */
  lemma {:induction false} PressureBounded(windows: seq<Window>, c: Clock)
    ensures -100.0 <= Worst(windows, c).pressure <= 100.0
    ensures Worst(windows, c).quality == 2 ==> Worst(windows, c).pressure == 100.0
    ensures Worst(windows, c).quality <= 2
  {
    if windows != [] {
      hide ScoreOf;
      ScoreBounded(windows[0], c);
      PressureBounded(windows[1..], c);
    }
  }

  /** Telemetry counts as unknown exactly when some window is, or there is none. */
  lemma {:induction false} UnknownExactly(windows: seq<Window>, c: Clock)
    ensures Worst(windows, c).quality == 2 <==> windows == [] || exists w | w in windows :: Classify(w, c).Unknown?
  {
    if windows != [] {
      hide Classify;
      UnknownExactly(windows[1..], c);
      PressureBounded(windows[1..], c);
      assert windows == [windows[0]] + windows[1..];
    }
  }

  lemma RoundClose(x: real)
    ensures x - 0.0000005 <= Round6(x) <= x + 0.0000005
  {}

  lemma FloorMonotone(x: real, y: real)
    requires x <= y
    ensures x.Floor <= y.Floor
  {}

  lemma RoundMonotone(x: real, y: real)
    requires x <= y
    ensures Round6(x) <= Round6(y)
  {
    if 0.0 <= x {
      FloorMonotone(x * 1_000_000.0 + 0.5, y * 1_000_000.0 + 0.5);
    } else if y < 0.0 {
      FloorMonotone(-y * 1_000_000.0 + 0.5, -x * 1_000_000.0 + 0.5);
    } else {
      assert (-x * 1_000_000.0 + 0.5).Floor >= 0 && (y * 1_000_000.0 + 0.5).Floor >= 0;
    }
  }

  // ---------------------------------------------------------------- the choice

  lemma BeforeTotal(weighted: bool, a: Account, b: Account, c: Clock)
    ensures a.id != b.id ==> Before(weighted, a, b, c) || Before(weighted, b, a, c)
    ensures !(Before(weighted, a, b, c) && Before(weighted, b, a, c))
  {
    hide Cost, Worst;
  }

  lemma BeforeTransitive(weighted: bool, a: Account, b: Account, d: Account, c: Clock)
    requires Before(weighted, a, b, c) && Before(weighted, b, d, c)
    ensures Before(weighted, a, d, c)
  {
    hide Cost, Worst;
  }

  predicate UniqueIds(accounts: seq<Account>) {
    forall i, j | 0 <= i < j < |accounts| :: accounts[i].id != accounts[j].id
  }

  /** The chosen account comes before every other candidate, and one is chosen whenever there is one. */
  lemma {:induction false} ChosenFirst(weighted: bool, accounts: seq<Account>, excluded: set<nat>, c: Clock)
    requires UniqueIds(accounts)
    ensures
      var r := Choose(weighted, accounts, excluded, c);
      && (r.None? <==> forall a | a in accounts :: !Candidate(a, excluded, c.now))
      && (r.Some? ==>
            forall a | a in accounts && Candidate(a, excluded, c.now) && a != r.value ::
              Before(weighted, r.value, a, c))
  {
    if accounts != [] {
      hide Before, Eligible;
      var a, rest := accounts[0], accounts[1..];
      assert accounts == [a] + rest;
      ChosenFirst(weighted, rest, excluded, c);
      var r := Choose(weighted, rest, excluded, c);
      if Candidate(a, excluded, c.now) && r.Some? {
        var k :| 0 <= k < |rest| && rest[k] == r.value;
        assert accounts[k + 1] == r.value && a.id != r.value.id;
        BeforeTotal(weighted, a, r.value, c);
        if Before(weighted, a, r.value, c) {
          forall b | b in rest && Candidate(b, excluded, c.now) && b != r.value ensures Before(weighted, a, b, c) {
            BeforeTransitive(weighted, a, r.value, b, c);
          }
        }
      }
    }
  }

  /** The chosen account has at most 100 more requests in flight than any other account that could have been chosen. */
  lemma ChosenLoadBounded(accounts: seq<Account>, excluded: set<nat>, c: Clock, chosen: Account, other: Account)
    requires UniqueIds(accounts) && Choose(true, accounts, excluded, c) == Some(chosen)
    requires other in accounts && Candidate(other, excluded, c.now)
    ensures Load(chosen) <= Load(other) + 100
  {
    ChosenFirst(true, accounts, excluded, c);
    hide Choose, Worst, Round6, Eligible;
    assert Cost(chosen, c) <= Cost(other, c);
    var p, q := Worst(chosen.windows, c).pressure, Worst(other.windows, c).pressure;
    PressureBounded(chosen.windows, c);
    PressureBounded(other.windows, c);
    RoundClose(p + INFLIGHT_PENALTY * Load(chosen) as real);
    RoundClose(q + INFLIGHT_PENALTY * Load(other) as real);
  }

  predicate Telemetered(a: Account, c: Clock) {
    a.windows != [] && forall w | w in a.windows :: !Classify(w, c).Unknown?
  }

  lemma KnownBeforeUnknown(known: Account, unknown: Account, c: Clock)
    requires Telemetered(known, c) && !Telemetered(unknown, c) && Load(known) <= Load(unknown)
    ensures Before(true, known, unknown, c)
  {
    UnknownExactly(unknown.windows, c);
    UnknownExactly(known.windows, c);
    PressureBounded(unknown.windows, c);
    PressureBounded(known.windows, c);
    hide Worst, Round6, Classify;
    RoundMonotone(
      Worst(known.windows, c).pressure + INFLIGHT_PENALTY * Load(known) as real,
      Worst(unknown.windows, c).pressure + INFLIGHT_PENALTY * Load(unknown) as real);
  }

  /** An account whose telemetry is unknown is not chosen over a known one that has no more requests in flight. */
  lemma UnknownNeverPreferred(accounts: seq<Account>, excluded: set<nat>, c: Clock, chosen: Account, known: Account)
    requires UniqueIds(accounts) && Choose(true, accounts, excluded, c) == Some(chosen)
    requires known in accounts && Candidate(known, excluded, c.now) && Telemetered(known, c)
    requires Load(known) <= Load(chosen)
    ensures Telemetered(chosen, c)
  {
    ChosenFirst(true, accounts, excluded, c);
    BeforeTotal(true, known, chosen, c);
    hide Choose, Before, Telemetered, Eligible;
    if !Telemetered(chosen, c) {
      KnownBeforeUnknown(known, chosen, c);
    }
  }

  /** The bound of 100 is reached: a window about to reset against an account nothing is known of. */
  lemma LoadBoundAttained(now: real, refreshSeconds: nat, c: Clock, busy: Account, idle: Account)
    requires c == ClockAt(now, refreshSeconds)
    requires busy
        == Account(1, true, Null, 100, 0, 0, [Window(Some(0.0), Some(86_400), At(c.now + 0.000000004), At(c.now))])
    requires idle == Account(2, true, Null, 0, 0, 0, [])
    ensures UniqueIds([busy, idle]) && Candidate(idle, {}, c.now) && Choose(true, [busy, idle], {}, c) == Some(busy)
  {
    var w := busy.windows[0];
    assert Classify(w, c) == Timed;
    assert Remaining(w.reset.days, c.now, 86_400) == 0.000000004;
    assert Worst(busy.windows, c).pressure == -99.9999996;
    assert Cost(busy, c) == 100.0 && Cost(idle, c) == 100.0;
    assert Before(true, busy, idle, c);
    hide Before, Cost, Classify, ScoreOf, Worst;
    assert [busy, idle][1..] == [idle] && [idle][1..] == [];
    assert Choose(true, [idle], {}, c) == Some(idle);
  }
}
