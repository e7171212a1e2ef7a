/** What a score says of an account, and how scores and ages order the candidates. */
module ScoreOrder {
  import opened Base
  import opened Scoring

  /** Telemetry of some age in seconds is fresh up to five minutes, and up to three refresh intervals. */
  lemma FreshExactly(now: real, refreshSeconds: nat, age: nat)
    ensures age as real / DAY_SECONDS <= ClockAt(now, refreshSeconds).freshness <==>
              age <= 300 || (age <= 3 * refreshSeconds && age <= I64_MAX)
  {}

  // ---------------------------------------------------------------- one window

  /** The share of a window that is over, counted from its start. */
  ghost function Elapsed(reset: real, seconds: int, now: real): real
    requires seconds > 0
  {
    var length := seconds as real / DAY_SECONDS;
    var gone := (now - (reset - length)) / length;
    if gone < 0.0 then 0.0 else if gone > 1.0 then 1.0 else gone
  }

  /** What a window reports can be made sense of. */
  predicate Readable(w: Window, c: Clock) {
    && w.used.Some? && !w.reset.Unreadable? && (w.seconds.Some? ==> w.seconds.value > 0)
    && (w.reset.At? && w.seconds.Some? ==>
          w.reset.days <= c.now + (w.seconds.value as real + SKEW_SECONDS) / DAY_SECONDS)
  }

  predicate JustReset(w: Window, c: Clock) { w.reset.At? && c.now - c.freshness <= w.reset.days <= c.now }

  predicate RecentlyFetched(w: Window, c: Clock) {
    && (w.reset.At? ==> w.reset.days > c.now)
    && w.fetched.At? && c.now - c.freshness <= w.fetched.days <= c.now + SKEW_SECONDS / DAY_SECONDS
  }

  /** How a window is taken: by what it reports, and whether that is fresh. */
  lemma ClassifiedExactly(w: Window, c: Clock)
    requires c.freshness >= 0.0
    ensures Classify(w, c).Unknown? <==> !Readable(w, c) || (!JustReset(w, c) && !RecentlyFetched(w, c))
    ensures Classify(w, c).Reset? <==> Readable(w, c) && JustReset(w, c)
    ensures Classify(w, c).Timed? <==>
              Readable(w, c) && RecentlyFetched(w, c) && w.reset.At? && w.seconds.Some?
    ensures Classify(w, c).Raw? <==>
              Readable(w, c) && RecentlyFetched(w, c) && !(w.reset.At? && w.seconds.Some?)
  {}

  lemma RestOf(part: real, whole: real)
    requires whole > 0.0
    ensures (whole - part) / whole == 1.0 - part / whole
  {
    var q, r := part / whole, (whole - part) / whole;
    assert q * whole == part && r * whole == whole - part;
    assert (q + r - 1.0) * whole == 0.0;
    SignOfProduct(q + r - 1.0, whole);
  }

  lemma SignOfProduct(x: real, y: real)
    requires y > 0.0
    ensures (x > 0.0 ==> x * y > 0.0) && (x < 0.0 ==> x * y < 0.0)
  {}

  lemma RemainingIsRest(reset: real, now: real, seconds: int)
    requires seconds > 0
    ensures Remaining(reset, now, seconds) == 1.0 - Elapsed(reset, seconds, now)
  {
    var length := seconds as real / DAY_SECONDS;
    assert length > 0.0;
    assert (reset - now) * DAY_SECONDS / seconds as real == (reset - now) / length;
    assert now - (reset - length) == length - (reset - now);
    RestOf(reset - now, length);
  }

  /** The pressure of a timed window is the used share less the elapsed share: positive exactly when use runs ahead. */
  lemma TimedPressure(w: Window, c: Clock)
    requires Classify(w, c).Timed?
    ensures var share := Elapsed(w.reset.days, w.seconds.value, c.now);
            && ScoreOf(w, c).pressure == ScoreOf(w, c).used - 100.0 * share
            && (ScoreOf(w, c).pressure > 0.0 <==> ScoreOf(w, c).used / 100.0 > share)
            && ScoreOf(w, c).quality == 0
    ensures 0.0 <= ScoreOf(w, c).used <= 100.0
    ensures 0.0 <= w.used.value <= 100.0 ==> ScoreOf(w, c).used == w.used.value
    ensures w.used.value < 0.0 ==> ScoreOf(w, c).used == 0.0
    ensures w.used.value > 100.0 ==> ScoreOf(w, c).used == 100.0
  {
    RemainingIsRest(w.reset.days, c.now, w.seconds.value);
    hide Remaining, Elapsed;
  }

  /** More use of the same window is more pressure, and the same use later in the window is less. */
  lemma PressureMonotone(v: Window, w: Window, c: Clock)
    requires Classify(v, c).Timed? && Classify(w, c).Timed?
    ensures v.reset == w.reset && v.seconds == w.seconds ==>
              (ScoreOf(v, c).pressure < ScoreOf(w, c).pressure <==> ScoreOf(v, c).used < ScoreOf(w, c).used)
    ensures ScoreOf(v, c).used == ScoreOf(w, c).used ==>
              (ScoreOf(v, c).pressure < ScoreOf(w, c).pressure
               <==> Elapsed(v.reset.days, v.seconds.value, c.now) > Elapsed(w.reset.days, w.seconds.value, c.now))
  {
    TimedPressure(v, c);
    TimedPressure(w, c);
    hide ScoreOf, Classify, Elapsed;
  }

  /** The other windows: one without a clock counts as used, one just reset as empty, and an unknown one as full. */
  lemma UntimedScores(w: Window, c: Clock)
    ensures Classify(w, c).Raw? ==>
              && ScoreOf(w, c) == Score(ScoreOf(w, c).used, 0, ScoreOf(w, c).used)
              && ScoreOf(w, c).used == (if w.used.value < 0.0 then 0.0 else if w.used.value > 100.0 then 100.0
                                        else w.used.value)
    ensures Classify(w, c).Reset? ==> ScoreOf(w, c) == Score(0.0, 1, 0.0)
    ensures Classify(w, c).Unknown? ==> ScoreOf(w, c) == Score(100.0, 2, 100.0)
  {
    assert Classify(w, c).Raw? ==> w.used.Some?;
    hide Classify;
  }

  // ---------------------------------------------------------------- all windows of an account

  /** Each column of an account's score is the worst of its windows, and that of an unknown window if it has none. */
  lemma {:induction false} WorstExactly(windows: seq<Window>, c: Clock)
    ensures windows == [] ==> Worst(windows, c) == Score(100.0, 2, 100.0)
    ensures forall w | w in windows ::
              && ScoreOf(w, c).pressure <= Worst(windows, c).pressure
              && ScoreOf(w, c).quality <= Worst(windows, c).quality
              && ScoreOf(w, c).used <= Worst(windows, c).used
    ensures windows != [] ==>
              && (exists w | w in windows :: ScoreOf(w, c).pressure == Worst(windows, c).pressure)
              && (exists w | w in windows :: ScoreOf(w, c).quality == Worst(windows, c).quality)
              && (exists w | w in windows :: ScoreOf(w, c).used == Worst(windows, c).used)
  {
    hide ScoreOf;
    if windows != [] {
      WorstExactly(windows[1..], c);
      assert windows == [windows[0]] + windows[1..];
      assert windows[0] in windows;
    }
  }

  /** The same timed windows, none of them less used. */
  ghost predicate AtLeastAsUsed(a: seq<Window>, b: seq<Window>, c: Clock) {
    && |a| == |b|
    && forall i | 0 <= i < |a| ::
         && Classify(a[i], c).Timed? && Classify(b[i], c).Timed?
         && a[i].reset == b[i].reset && a[i].seconds == b[i].seconds && ScoreOf(b[i], c).used <= ScoreOf(a[i], c).used
  }

  lemma {:induction false} UsedIsWorse(a: seq<Window>, b: seq<Window>, c: Clock)
    requires AtLeastAsUsed(a, b, c)
    ensures Worst(b, c).pressure <= Worst(a, c).pressure && Worst(b, c).quality == Worst(a, c).quality
    ensures Worst(b, c).used <= Worst(a, c).used
  {
    if a != [] {
      PressureMonotone(a[0], b[0], c);
      PressureMonotone(b[0], a[0], c);
      TimedPressure(a[0], c);
      TimedPressure(b[0], c);
      hide ScoreOf, Classify, Elapsed;
      assert AtLeastAsUsed(a[1..], b[1..], c);
      UsedIsWorse(a[1..], b[1..], c);
    }
  }

  // ---------------------------------------------------------------- the order

  /** The columns candidates are ordered by. */
  ghost function Columns(weighted: bool, a: Account, c: Clock): seq<real> {
    (if weighted then
       [Round6(Worst(a.windows, c).pressure + 2.0 * Load(a) as real), Worst(a.windows, c).quality as real,
        Worst(a.windows, c).used, Load(a) as real]
     else [])
    + [a.lastSelected as real, a.created as real, a.id as real]
  }

  ghost predicate DiffersAt(s: seq<real>, t: seq<real>, i: nat) {
    i < |s| && i < |t| && s[i] < t[i] && forall j | 0 <= j < i :: s[j] == t[j]
  }

  /** The first difference decides. */
  ghost predicate FirstDifference(s: seq<real>, t: seq<real>) { exists i: nat :: DiffersAt(s, t, i) }

  /** The first difference of two lists is in front, or else further on. */
  lemma DifferenceFurther(a: real, s: seq<real>, b: real, t: seq<real>)
    ensures FirstDifference([a] + s, [b] + t) <==> a < b || (a == b && FirstDifference(s, t))
  {
    DiffersInFront(a, s, b, t);
    hide DiffersAt;
    if i: nat :| DiffersAt([a] + s, [b] + t, i) {
      if i > 0 {
        DiffersFurther(a, s, b, t, i - 1);
        assert DiffersAt(s, t, i - 1);
      }
    }
    if a == b && FirstDifference(s, t) {
      var i: nat :| DiffersAt(s, t, i);
      DiffersFurther(a, s, b, t, i);
      assert DiffersAt([a] + s, [b] + t, i + 1);
    }
    if a < b {
      assert DiffersAt([a] + s, [b] + t, 0);
    }
  }

  lemma DiffersInFront(a: real, s: seq<real>, b: real, t: seq<real>)
    ensures DiffersAt([a] + s, [b] + t, 0) <==> a < b
  {}

  lemma DiffersFurther(a: real, s: seq<real>, b: real, t: seq<real>, i: nat)
    ensures DiffersAt([a] + s, [b] + t, i + 1) <==> a == b && DiffersAt(s, t, i)
  {
    var x, y := [a] + s, [b] + t;
    assert x[0] == a && y[0] == b;
    assert forall j | 0 <= j < |s| :: x[j + 1] == s[j];
    assert forall j | 0 <= j < |t| :: y[j + 1] == t[j];
    if a == b && DiffersAt(s, t, i) {
      forall j | 0 <= j < i + 1 ensures x[j] == y[j] {
        if j > 0 { assert x[j] == s[j - 1] && y[j] == t[j - 1]; }
      }
    }
    if DiffersAt(x, y, i + 1) {
      forall j | 0 <= j < i ensures s[j] == t[j] {
        assert x[j + 1] == y[j + 1];
      }
    }
  }

  lemma FirstOfWeighted(s: seq<real>, t: seq<real>)
    requires |s| == |t| == 7
    ensures FirstDifference(s, t) <==>
              if s[0] != t[0] then s[0] < t[0] else if s[1] != t[1] then s[1] < t[1]
              else if s[2] != t[2] then s[2] < t[2] else if s[3] != t[3] then s[3] < t[3]
              else if s[4] != t[4] then s[4] < t[4] else if s[5] != t[5] then s[5] < t[5]
              else s[6] < t[6]
  {
    hide FirstDifference;
    assert s == [s[0]] + ([s[1]] + ([s[2]] + ([s[3]] + s[4..])));
    assert t == [t[0]] + ([t[1]] + ([t[2]] + ([t[3]] + t[4..])));
    DifferenceFurther(s[3], s[4..], t[3], t[4..]);
    DifferenceFurther(s[2], [s[3]] + s[4..], t[2], [t[3]] + t[4..]);
    DifferenceFurther(s[1], [s[2]] + ([s[3]] + s[4..]), t[1], [t[2]] + ([t[3]] + t[4..]));
    DifferenceFurther(s[0], [s[1]] + ([s[2]] + ([s[3]] + s[4..])), t[0], [t[1]] + ([t[2]] + ([t[3]] + t[4..])));
    FirstOfAges(s[4..], t[4..]);
  }

  lemma FirstOfAges(s: seq<real>, t: seq<real>)
    requires |s| == |t| == 3
    ensures FirstDifference(s, t) <==>
              if s[0] != t[0] then s[0] < t[0] else if s[1] != t[1] then s[1] < t[1] else s[2] < t[2]
  {
    assert DiffersAt(s, t, 0) <==> s[0] < t[0];
    assert DiffersAt(s, t, 1) <==> s[0] == t[0] && s[1] < t[1];
    assert DiffersAt(s, t, 2) <==> s[0] == t[0] && s[1] == t[1] && s[2] < t[2];
    assert forall i: nat | DiffersAt(s, t, i) :: i == 0 || i == 1 || i == 2;
    hide DiffersAt;
  }

  /** Candidates are ordered by their columns, the first difference deciding. */
  lemma BeforeIsByColumns(weighted: bool, a: Account, b: Account, c: Clock)
    ensures Before(weighted, a, b, c) <==> FirstDifference(Columns(weighted, a, c), Columns(weighted, b, c))
  {
    if weighted {
      FirstOfWeighted(Columns(true, a, c), Columns(true, b, c));
    } else {
      FirstOfAges(Columns(false, a, c), Columns(false, b, c));
    }
    hide FirstDifference, Worst, Round6;
  }

  lemma FloorIs(y: real, n: int)
    ensures y.Floor == n <==> n as real <= y < n as real + 1.0
  {}

  /** Rounding gives the nearest number of six decimals, away from zero when two are equally near. */
  lemma RoundedExactly(x: real, n: int)
    ensures Round6(x) * 1_000_000.0 == n as real <==>
              var exact := x * 1_000_000.0;
              if x >= 0.0 then n as real - 0.5 <= exact < n as real + 0.5
              else n as real - 0.5 < exact <= n as real + 0.5
  {
    if x >= 0.0 {
      FloorIs(x * 1_000_000.0 + 0.5, n);
      assert Round6(x) * 1_000_000.0 == (x * 1_000_000.0 + 0.5).Floor as real;
    } else {
      FloorIs(-x * 1_000_000.0 + 0.5, -n);
      assert Round6(x) * 1_000_000.0 == -((-x * 1_000_000.0 + 0.5).Floor as real);
    }
  }

  /** Of two candidates with the same load and the same timed windows, the more used one is not chosen. */
  lemma LessUsedPreferred(accounts: seq<Account>, excluded: set<nat>, c: Clock, chosen: Account, other: Account)
    requires UniqueIds(accounts) && Choose(true, accounts, excluded, c) == Some(chosen)
    requires other in accounts && Candidate(other, excluded, c.now) && Load(chosen) == Load(other)
    requires AtLeastAsUsed(chosen.windows, other.windows, c)
    ensures Worst(chosen.windows, c).used == Worst(other.windows, c).used
  {
    hide *;
    ChosenFirst(true, accounts, excluded, c);
    UsedIsWorse(chosen.windows, other.windows, c);
    if chosen != other {
      LessUsedBefore(chosen, other, c);
    }
  }

  lemma LessUsedBefore(chosen: Account, other: Account, c: Clock)
    requires Before(true, chosen, other, c) && Load(chosen) == Load(other)
    requires Worst(other.windows, c).pressure <= Worst(chosen.windows, c).pressure
    requires Worst(other.windows, c).quality == Worst(chosen.windows, c).quality
    requires Worst(other.windows, c).used <= Worst(chosen.windows, c).used
    ensures Worst(chosen.windows, c).used == Worst(other.windows, c).used
  {
    hide Worst, Round6, Load;
    RoundMonotone(Worst(other.windows, c).pressure + INFLIGHT_PENALTY * Load(other) as real,
                  Worst(chosen.windows, c).pressure + INFLIGHT_PENALTY * Load(chosen) as real);
  }

  /** Later in its window, an account with the same use and load is preferred, unless rounding makes them equal. */
  lemma LaterInWindowPreferred(accounts: seq<Account>, excluded: set<nat>, c: Clock, chosen: Account, other: Account,
                               v: Window, w: Window)
    requires UniqueIds(accounts) && Choose(true, accounts, excluded, c) == Some(chosen)
    requires other in accounts && Candidate(other, excluded, c.now) && Load(chosen) == Load(other)
    requires chosen.windows == [v] && other.windows == [w] && Classify(v, c).Timed? && Classify(w, c).Timed?
    requires ScoreOf(v, c).used == ScoreOf(w, c).used
    ensures 100.0 * Elapsed(v.reset.days, v.seconds.value, c.now)
         >= 100.0 * Elapsed(w.reset.days, w.seconds.value, c.now) - 0.000001
  {
    ChosenFirst(true, accounts, excluded, c);
    TimedPressure(v, c);
    TimedPressure(w, c);
    assert Worst(chosen.windows, c) == ScoreOf(v, c) && Worst(other.windows, c) == ScoreOf(w, c);
    hide Choose, Worst, Round6, Eligible, ScoreOf, Classify, Elapsed;
    RoundClose(ScoreOf(v, c).pressure + INFLIGHT_PENALTY * Load(chosen) as real);
    RoundClose(ScoreOf(w, c).pressure + INFLIGHT_PENALTY * Load(other) as real);
  }

  // ---------------------------------------------------------------- who can be chosen

  /** The account is active, not cooling down, and no window of it is used up. */
  ghost predicate Usable(a: Account, now: real) {
    && a.active && !a.cooldown.Unreadable? && (a.cooldown.At? ==> a.cooldown.days <= now)
    && forall w | w in a.windows && w.used.Some? && w.used.value >= 100.0 :: w.reset.At? && w.reset.days <= now
  }

  /** One is chosen exactly when some account is usable and not excluded, and it is such an account. */
  lemma ChosenExactly(weighted: bool, accounts: seq<Account>, excluded: set<nat>, c: Clock)
    requires UniqueIds(accounts)
    ensures var r := Choose(weighted, accounts, excluded, c);
            && (r.Some? <==> exists a | a in accounts :: Usable(a, c.now) && a.id !in excluded)
            && (r.Some? ==>
                  && r.value in accounts && Usable(r.value, c.now) && r.value.id !in excluded
                  && forall a | a in accounts && Usable(a, c.now) && a.id !in excluded && a != r.value ::
                       FirstDifference(Columns(weighted, r.value, c), Columns(weighted, a, c)))
  {
    ChosenFirst(weighted, accounts, excluded, c);
    forall a | a in accounts ensures Candidate(a, excluded, c.now) <==> Usable(a, c.now) && a.id !in excluded {}
    forall a, b ensures Before(weighted, a, b, c)
        <==> FirstDifference(Columns(weighted, a, c), Columns(weighted, b, c)) {
      BeforeIsByColumns(weighted, a, b, c);
    }
    hide Choose, Eligible, Usable, Before, FirstDifference, Columns;
  }
}
