/**
 * Token refresh under per-account weak locks. Every store encrypts with a fresh nonce, so a stored token
 * is modelled by a version number that is never used twice.
 */
module TokenRefresh {
  import opened Base

  /** How far a caller has got. From `Waiting` on it keeps its mutex alive; from `Holding` on it holds it. */
  datatype Task =
    | Observed(account: nat, version: nat)
    | Waiting(account: nat, version: nat, mutex: nat)
    | Holding(account: nat, version: nat, mutex: nat)
    | Matched(account: nat, version: nat, mutex: nat)
    | Sent(account: nat, version: nat, mutex: nat)
    | Finished

  /**
   * The stored versions, the callers and the weak lock table; and for the proofs, every version that was sent,
   * every one whose replacement was stored, and those whose sender gave up before that.
   */
  datatype State = State(
    tokens: map<nat, nat>,
    tasks: map<nat, Task>,
    locks: map<nat, nat>,
    nextMutex: nat,
    nextVersion: nat,
    sends: seq<(nat, nat)>,
    exchanged: seq<(nat, nat)>,
    abandoned: set<(nat, nat)>)

  datatype Step =
    | Observe(task: nat, account: nat)
    | GetLock(task: nat)
    | Enter(task: nat)
    | Reread(task: nat)
    | Send(task: nat)
    | Store(task: nat)
    | Stop(task: nat)
    | Import(account: nat)
    | Delete(account: nat)

  predicate KeepsAlive(t: Task) { t.Waiting? || t.Holding? || t.Matched? || t.Sent? }
  predicate HasGuard(t: Task) { t.Holding? || t.Matched? || t.Sent? }

  /** `strong_count() > 0` for the mutex of an account's entry. */
  ghost predicate Alive(s: State, mutex: nat) {
    exists t | t in s.tasks :: KeepsAlive(s.tasks[t]) && s.tasks[t].mutex == mutex
  }

  ghost predicate Free(s: State, mutex: nat) {
    forall t | t in s.tasks && HasGuard(s.tasks[t]) :: s.tasks[t].mutex != mutex
  }

  ghost predicate Enabled(s: State, step: Step) {
    match step
    case Observe(task, account) => task !in s.tasks && account in s.tokens
    case GetLock(task) => task in s.tasks && s.tasks[task].Observed?
    case Enter(task) => task in s.tasks && s.tasks[task].Waiting? && Free(s, s.tasks[task].mutex)
    case Reread(task) => task in s.tasks && s.tasks[task].Holding?
    case Send(task) => task in s.tasks && s.tasks[task].Matched?
    case Store(task) => task in s.tasks && s.tasks[task].Sent?
    case Stop(task) => task in s.tasks
    case Import(account) => true
    case Delete(account) => account in s.tokens
  }

  /** Dead entries go; a live one is shared; otherwise a new mutex is entered. */
  ghost function Lock(s: State, account: nat): (map<nat, nat>, nat) {
    var kept := map a | a in s.locks && Alive(s, s.locks[a]) :: s.locks[a];
    if account in kept then (kept, kept[account]) else (kept[account := s.nextMutex], s.nextMutex)
  }

  function Move(s: State, task: nat, t: Task): State { s.(tasks := s.tasks[task := t]) }

  ghost function Next(s: State, step: Step): State
    requires Enabled(s, step)
  {
    match step
    case Observe(task, account) => Move(s, task, Observed(account, s.tokens[account]))
    case GetLock(task) =>
      var t := s.tasks[task];
      var (locks, mutex) := Lock(s, t.account);
      Move(s, task, Waiting(t.account, t.version, mutex)).(locks := locks, nextMutex := s.nextMutex + 1)
    case Enter(task) => var t := s.tasks[task]; Move(s, task, Holding(t.account, t.version, t.mutex))
    case Reread(task) =>
      var t := s.tasks[task];
      if t.account in s.tokens && s.tokens[t.account] == t.version then
        Move(s, task, Matched(t.account, t.version, t.mutex))
      else Move(s, task, Finished)
    case Send(task) =>
      var t := s.tasks[task];
      Move(s, task, Sent(t.account, t.version, t.mutex)).(sends := s.sends + [(t.account, t.version)])
    case Store(task) =>
      var t := s.tasks[task];
      if t.account in s.tokens then
        Move(s, task, Finished).(
          tokens := s.tokens[t.account := s.nextVersion],
          nextVersion := s.nextVersion + 1,
          exchanged := s.exchanged + [(t.account, t.version)])
      else Move(s, task, Finished)
    case Stop(task) =>
      var t := s.tasks[task];
      Move(s, task, Finished).(abandoned := s.abandoned + if t.Sent? then {(t.account, t.version)} else {})
    case Import(account) => s.(tokens := s.tokens[account := s.nextVersion], nextVersion := s.nextVersion + 1)
    case Delete(account) => s.(tokens := s.tokens - {account})
  }

  ghost predicate IsRun(states: seq<State>, steps: seq<Step>) {
    && |states| == |steps| + 1
    && forall i | 0 <= i < |steps| :: Enabled(states[i], steps[i]) && states[i + 1] == Next(states[i], steps[i])
  }

  predicate Start(s: State) {
    && s.tasks == map[] && s.locks == map[] && s.sends == [] && s.exchanged == [] && s.abandoned == {}
    && forall a | a in s.tokens :: s.tokens[a] < s.nextVersion
  }

  // ---------------------------------------------------------------- invariants

  /** Callers of one account share the mutex of its entry, so an account never has two live ones. */
  ghost predicate OneMutex(s: State) {
    && (forall t | t in s.tasks && KeepsAlive(s.tasks[t]) ::
          s.tasks[t].account in s.locks && s.locks[s.tasks[t].account] == s.tasks[t].mutex)
    && (forall t | t in s.tasks && KeepsAlive(s.tasks[t]) :: s.tasks[t].mutex < s.nextMutex)
    && (forall a, b | a in s.locks && b in s.locks && a != b :: s.locks[a] != s.locks[b])
    && (forall a | a in s.locks :: s.locks[a] < s.nextMutex)
  }

  ghost predicate Exclusive(s: State) {
    forall t, u | t in s.tasks && u in s.tasks && HasGuard(s.tasks[t]) && HasGuard(s.tasks[u])
                  && s.tasks[t].mutex == s.tasks[u].mutex :: t == u
  }

  /** The versions in use are old enough, and none that has been exchanged is stored or about to be sent. */
  ghost predicate Spent(s: State) {
    && (forall a | a in s.tokens :: s.tokens[a] < s.nextVersion)
    && (forall e | e in s.exchanged :: e.1 < s.nextVersion)
    && (forall a | a in s.tokens :: (a, s.tokens[a]) !in s.exchanged)
    && (forall t | t in s.tasks && !s.tasks[t].Finished? :: s.tasks[t].version < s.nextVersion)
    && (forall t | t in s.tasks && (s.tasks[t].Matched? || s.tasks[t].Sent?) ::
          (s.tasks[t].account, s.tasks[t].version) !in s.exchanged)
  }

  predicate Distinct(log: seq<(nat, nat)>) { forall i, j | 0 <= i < j < |log| :: log[i] != log[j] }

  /**
    Of the entries those with a live caller stay; the account shares its own if it is one of them, or
    gets a new mutex.
   */
  lemma LockedExactly(s: State, account: nat)
    ensures var (locks, mutex) := Lock(s, account);
            && account in locks && locks[account] == mutex
            && (mutex == if account in s.locks && Alive(s, s.locks[account]) then s.locks[account] else s.nextMutex)
            && (forall a | a != account ::
                  (a in locks <==> a in s.locks && Alive(s, s.locks[a])) && (a in locks ==> locks[a] == s.locks[a]))
  {}

  lemma LockKeepsOneMutex(s: State, task: nat)
    requires OneMutex(s) && task in s.tasks && s.tasks[task].Observed?
    ensures
      var (locks, mutex) := Lock(s, s.tasks[task].account);
      && (forall u | u in s.tasks && KeepsAlive(s.tasks[u]) ::
            s.tasks[u].account in locks && locks[s.tasks[u].account] == s.tasks[u].mutex)
      && s.tasks[task].account in locks && locks[s.tasks[task].account] == mutex
      && (forall a, b | a in locks && b in locks && a != b :: locks[a] != locks[b])
      && (forall a | a in locks :: locks[a] <= s.nextMutex)
  {
    forall u | u in s.tasks && KeepsAlive(s.tasks[u]) ensures Alive(s, s.tasks[u].mutex) {}
    hide Alive;
  }

  lemma StepKeepsOneMutex(s: State, step: Step)
    requires Enabled(s, step) && OneMutex(s)
    ensures OneMutex(Next(s, step))
  {
    hide Lock;
    if step.GetLock? {
      LockKeepsOneMutex(s, step.task);
    }
  }

  lemma StepKeepsExclusive(s: State, step: Step)
    requires Enabled(s, step) && Exclusive(s)
    ensures Exclusive(Next(s, step))
  {
    hide Lock;
  }

  /** Two callers that hold a guard for the same account are the same caller. */
  lemma OneHolder(s: State, t: nat, u: nat)
    requires OneMutex(s) && Exclusive(s) && t in s.tasks && u in s.tasks
    requires HasGuard(s.tasks[t]) && HasGuard(s.tasks[u]) && s.tasks[t].account == s.tasks[u].account
    ensures t == u
  {}

  /** Whoever else is about to send or has sent works for another account. */
  lemma OthersElsewhere(s: State, task: nat)
    requires OneMutex(s) && Exclusive(s) && task in s.tasks && s.tasks[task].Sent?
    ensures forall u | u in s.tasks && u != task && (s.tasks[u].Matched? || s.tasks[u].Sent?) ::
              s.tasks[u].account != s.tasks[task].account
  {
    forall u | u in s.tasks && u != task && (s.tasks[u].Matched? || s.tasks[u].Sent?)
      ensures s.tasks[u].account != s.tasks[task].account
    {
      if s.tasks[u].account == s.tasks[task].account { OneHolder(s, u, task); }
    }
  }

  lemma StoreKeepsSpent(s: State, step: Step)
    requires step.Store? && Enabled(s, step) && Spent(s)
    requires forall u | u in s.tasks && u != step.task && (s.tasks[u].Matched? || s.tasks[u].Sent?) ::
               s.tasks[u].account != s.tasks[step.task].account
    ensures Spent(Next(s, step))
  {}

  lemma StepKeepsSpent(s: State, step: Step)
    requires Enabled(s, step) && OneMutex(s) && Exclusive(s) && Spent(s)
    ensures Spent(Next(s, step))
  {
    if step.Store? {
      OthersElsewhere(s, step.task);
      StoreKeepsSpent(s, step);
    } else {
      hide Lock, OneMutex, Exclusive, Free;
    }
  }

  lemma StepKeepsDistinct(s: State, step: Step)
    requires Enabled(s, step) && Spent(s) && Distinct(s.exchanged)
    ensures Distinct(Next(s, step).exchanged)
  {
    hide Lock;
  }

  ghost predicate Safe(s: State) { OneMutex(s) && Exclusive(s) && Spent(s) && Distinct(s.exchanged) }

  lemma {:induction false} RunKeepsSafe(states: seq<State>, steps: seq<Step>, i: nat)
    requires IsRun(states, steps) && i <= |steps| && Start(states[0])
    ensures Safe(states[i])
  {
    if i > 0 {
      hide Next, OneMutex, Exclusive, Spent, Distinct;
      RunKeepsSafe(states, steps, i - 1);
      StepKeepsOneMutex(states[i - 1], steps[i - 1]);
      StepKeepsExclusive(states[i - 1], steps[i - 1]);
      StepKeepsSpent(states[i - 1], steps[i - 1]);
      StepKeepsDistinct(states[i - 1], steps[i - 1]);
    }
  }

  // ---------------------------------------------------------------- main results

  /** At most one mutex is alive for an account, whoever dropped and re-created the entry before. */
  lemma OneLiveMutex(states: seq<State>, steps: seq<Step>, i: nat, t: nat, u: nat)
    requires IsRun(states, steps) && i <= |steps| && Start(states[0])
    requires t in states[i].tasks && u in states[i].tasks && KeepsAlive(states[i].tasks[t])
        && KeepsAlive(states[i].tasks[u])
    ensures states[i].tasks[t].account == states[i].tasks[u].account
        <==> states[i].tasks[t].mutex == states[i].tasks[u].mutex
  {
    RunKeepsSafe(states, steps, i);
  }

  /** Each version is replaced at most once: of the callers that saw it, one stores what it was exchanged for. */
  lemma ExchangedOnce(states: seq<State>, steps: seq<Step>, i: nat)
    requires IsRun(states, steps) && i <= |steps| && Start(states[0])
    ensures Distinct(states[i].exchanged)
  {
    RunKeepsSafe(states, steps, i);
  }

  /** A refresh token is not sent again once the replacement it was exchanged for is stored. */
  lemma NeverSentAfterReplaced(states: seq<State>, steps: seq<Step>, i: nat)
    requires IsRun(states, steps) && i < |steps| && Start(states[0]) && steps[i].Send?
    ensures
      var t := states[i].tasks[steps[i].task];
      (t.account, t.version) !in states[i].exchanged
  {
    RunKeepsSafe(states, steps, i);
  }

  // ---------------------------------------------------------------- sent tokens and the stored one

  predicate Holds(s: State, account: nat, version: nat) { account in s.tokens && s.tokens[account] == version }

  /** `task` has checked this version and has not finished with it. */
  predicate Uses(s: State, task: nat, account: nat, version: nat) {
    && task in s.tasks
    && (s.tasks[task].Matched? || s.tasks[task].Sent?)
    && s.tasks[task].account == account && s.tasks[task].version == version
  }

  predicate Replaces(step: Step, account: nat) { step == Import(account) || step == Delete(account) }

  /** The account was neither imported nor deleted in steps `j..i`. */
  ghost predicate LeftAlone(steps: seq<Step>, j: nat, i: nat, account: nat)
    requires i <= |steps|
  {
    forall k | j <= k < i :: !Replaces(steps[k], account)
  }

  lemma LeftAloneStep(steps: seq<Step>, j: nat, i: nat, account: nat)
    requires j < i <= |steps|
    ensures LeftAlone(steps, j, i, account) <==> LeftAlone(steps, j, i - 1, account) && !Replaces(steps[i - 1], account)
  {}

  lemma HoldsAfterStep(s: State, step: Step, task: nat, account: nat, version: nat)
    requires Enabled(s, step) && Safe(s)
    requires Uses(s, task, account, version) && Uses(Next(s, step), task, account, version)
    ensures Holds(Next(s, step), account, version) <==> Holds(s, account, version) && !Replaces(step, account)
  {
    hide Lock, Distinct;
    if step.Store? && s.tasks[step.task].account == account {
      OneHolder(s, task, step.task);
    }
  }

  /**
   * From its check until it is done with it, a caller's token stays the stored one if and only if in the meantime
   * the account is neither imported nor deleted: no other refresh, and nothing done to other accounts, replaces it.
   */
  lemma {:induction false} StaysStoredExactly(states: seq<State>, steps: seq<Step>, j: nat, i: nat,
                                              task: nat, account: nat, version: nat)
    requires IsRun(states, steps) && j <= i <= |steps| && Start(states[0])
    requires forall m | j <= m <= i :: Uses(states[m], task, account, version)
    requires Holds(states[j], account, version)
    ensures Holds(states[i], account, version) <==> LeftAlone(steps, j, i, account)
    decreases i - j
  {
    hide Next, Enabled, Holds, Uses, Safe, Replaces, Start;
    if j < i {
      StaysStoredExactly(states, steps, j, i - 1, task, account, version);
      RunKeepsSafe(states, steps, i - 1);
      var s := states[i - 1];
      assert Enabled(s, steps[i - 1]) && states[i] == Next(s, steps[i - 1]);
      HoldsAfterStep(s, steps[i - 1], task, account, version);
      LeftAloneStep(steps, j, i, account);
      hide LeftAlone;
    }
  }

  /** The check itself passes exactly when the version is the stored one. */
  lemma CheckedIsStored(s: State, step: Step)
    requires step.Reread? && Enabled(s, step)
    ensures Next(s, step).tasks[step.task].Matched?
        <==> Holds(s, s.tasks[step.task].account, s.tasks[step.task].version)
  {}

  /** So, from the check of step `j` on, what the caller sends is the stored token exactly under that condition. */
  lemma CheckedStaysStored(states: seq<State>, steps: seq<Step>, j: nat, i: nat)
    requires IsRun(states, steps) && j < i <= |steps| && Start(states[0]) && steps[j].Reread?
    requires var t := states[j].tasks[steps[j].task];
             forall m | j < m <= i :: Uses(states[m], steps[j].task, t.account, t.version)
    ensures var t := states[j].tasks[steps[j].task];
            Holds(states[i], t.account, t.version) <==> LeftAlone(steps, j + 1, i, t.account)
  {
    var task := steps[j].task;
    var t := states[j].tasks[task];
    assert Enabled(states[j], steps[j]) && states[j + 1] == Next(states[j], steps[j]);
    assert Uses(states[j + 1], task, t.account, t.version);
    CheckedIsStored(states[j], steps[j]);
    hide Start, IsRun;
    StaysStoredExactly(states, steps, j + 1, i, task, t.account, t.version);
  }

  // ---------------------------------------------------------------- tokens sent twice

  ghost predicate InFlight(s: State, e: (nat, nat)) {
    exists t | t in s.tasks :: s.tasks[t].Sent? && s.tasks[t].account == e.0 && s.tasks[t].version == e.1
  }

  ghost predicate Gone(s: State, e: (nat, nat)) {
    !Holds(s, e.0, e.1) && forall t | t in s.tasks :: !Uses(s, t, e.0, e.1)
  }

  /** A version that was sent is exchanged, still in flight, given up on, or gone from the store for good. */
  ghost predicate Accounted(s: State, e: (nat, nat)) {
    e in s.exchanged || e in s.abandoned || InFlight(s, e) || Gone(s, e)
  }

  ghost predicate Traced(s: State) {
    && (forall e | e in s.sends :: e.1 < s.nextVersion && Accounted(s, e))
    && (forall e | e in s.abandoned :: e in s.sends)
    && (forall t | t in s.tasks && s.tasks[t].Sent? :: (s.tasks[t].account, s.tasks[t].version) in s.sends)
  }

  lemma InFlightStep(s: State, step: Step, e: (nat, nat))
    requires Enabled(s, step) && Safe(s) && InFlight(s, e)
    ensures Accounted(Next(s, step), e)
  {
    hide Lock, Distinct, Spent;
    var after := Next(s, step);
    var t :| t in s.tasks && s.tasks[t].Sent? && s.tasks[t].account == e.0 && s.tasks[t].version == e.1;
    if step == Store(t) {
      forall u | u in after.tasks && e.0 !in s.tokens ensures !Uses(after, u, e.0, e.1) {
        if Uses(s, u, e.0, e.1) { OneHolder(s, u, t); }
      }
      hide OneMutex, Exclusive;
    } else if step != Stop(t) {
      assert t in after.tasks && after.tasks[t] == s.tasks[t];
    }
  }

  lemma GoneStep(s: State, step: Step, e: (nat, nat))
    requires Enabled(s, step) && e.1 < s.nextVersion && Gone(s, e)
    ensures Gone(Next(s, step), e)
  {
    hide Lock;
    forall u | u in Next(s, step).tasks ensures !Uses(Next(s, step), u, e.0, e.1) {
      assert u in s.tasks ==> !Uses(s, u, e.0, e.1);
    }
  }

  lemma StepKeepsAccounted(s: State, step: Step, e: (nat, nat))
    requires Enabled(s, step) && Safe(s) && e.1 < s.nextVersion && Accounted(s, e)
    ensures Accounted(Next(s, step), e)
  {
    assert e in s.exchanged ==> e in Next(s, step).exchanged;
    assert e in s.abandoned ==> e in Next(s, step).abandoned;
    hide Next, Safe, InFlight, Gone;
    if InFlight(s, e) {
      InFlightStep(s, step, e);
    } else if Gone(s, e) {
      GoneStep(s, step, e);
    }
  }

  lemma StepKeepsTraced(s: State, step: Step)
    requires Enabled(s, step) && Safe(s) && Traced(s)
    ensures Traced(Next(s, step))
  {
    hide Lock, Distinct, OneMutex, Exclusive;
    var after := Next(s, step);
    forall e | e in after.sends ensures e.1 < after.nextVersion && Accounted(after, e) {
      if e in s.sends {
        StepKeepsAccounted(s, step, e);
      } else {
        assert after.tasks[step.task].Sent?;
      }
    }
  }

  lemma {:induction false} RunKeepsTraced(states: seq<State>, steps: seq<Step>, i: nat)
    requires IsRun(states, steps) && i <= |steps| && Start(states[0])
    ensures Traced(states[i])
  {
    if i > 0 {
      RunKeepsTraced(states, steps, i - 1);
      RunKeepsSafe(states, steps, i - 1);
      hide Next, Safe, Traced, Enabled;
      StepKeepsTraced(states[i - 1], steps[i - 1]);
    }
  }

  /**
    A version is sent a second time if and only if a caller that had sent it gave up, dropped or refused, before it
    stored an answer.
   */
  lemma SentAgainExactly(states: seq<State>, steps: seq<Step>, i: nat)
    requires IsRun(states, steps) && i < |steps| && Start(states[0]) && steps[i].Send?
    ensures
      var t := states[i].tasks[steps[i].task];
      (t.account, t.version) in states[i].sends <==> (t.account, t.version) in states[i].abandoned
  {
    RunKeepsSafe(states, steps, i);
    RunKeepsTraced(states, steps, i);
    var s, task := states[i], steps[i].task;
    var e := (s.tasks[task].account, s.tasks[task].version);
    assert Uses(s, task, e.0, e.1);
    if e in s.sends && e !in s.abandoned {
      assert Accounted(s, e) && e !in s.exchanged;
      var u :| u in s.tasks && s.tasks[u].Sent? && s.tasks[u].account == e.0 && s.tasks[u].version == e.1;
      OneHolder(s, u, task);
    }
  }

  /** It does happen: a waiting caller that saw the same version sends it again when its sender gives up. */
  lemma AbandonedVersionResent(s: State, sender: nat, waiter: nat)
    requires Safe(s) && Traced(s) && sender in s.tasks && s.tasks[sender].Sent?
    requires waiter in s.tasks && s.tasks[waiter].Waiting?
    requires s.tasks[waiter].account == s.tasks[sender].account && s.tasks[waiter].version == s.tasks[sender].version
    requires Holds(s, s.tasks[sender].account, s.tasks[sender].version)
    ensures
      && Enabled(s, Stop(sender))
      && var s1 := Next(s, Stop(sender));
      && Enabled(s1, Enter(waiter))
      && var s2 := Next(s1, Enter(waiter));
      && Enabled(s2, Reread(waiter))
      && var s3 := Next(s2, Reread(waiter));
      && Enabled(s3, Send(waiter))
      && var version := (s.tasks[sender].account, s.tasks[sender].version);
      && version in s3.sends
      && Next(s3, Send(waiter)).sends == s3.sends + [version]
  {}

  /** An import does not wait for the lock: it can replace a token between its check and its use. */
  lemma ImportOvertakes(s: State, task: nat)
    requires Safe(s) && task in s.tasks && s.tasks[task].Matched?
    ensures
      var account, imported := s.tasks[task].account, Next(s, Import(s.tasks[task].account));
      && Enabled(imported, Send(task))
      && !Holds(imported, account, imported.tasks[task].version)
  {}

  // ---------------------------------------------------------------- the lock table

  /** The process-wide table of weak locks; `alive` are the mutexes some caller still keeps. */
  class LockTable {
    var locks: map<nat, nat>
    var nextMutex: nat

    method AccountRefreshLock(account: nat, alive: set<nat>, ghost s: State) returns (mutex: nat)
      requires s.locks == locks && s.nextMutex == nextMutex && forall m :: m in alive <==> Alive(s, m)
      modifies this
      ensures (locks, mutex) == Lock(s, account) && nextMutex >= s.nextMutex
    {
      Retain(alive, s);
      if account in locks {
        return locks[account];
      }
      mutex := nextMutex;
      locks, nextMutex := locks[account := mutex], nextMutex + 1;
    }

    method Retain(alive: set<nat>, ghost s: State)
      requires s.locks == locks && forall m :: m in alive <==> Alive(s, m)
      modifies this`locks
      ensures locks == map a | a in s.locks && Alive(s, s.locks[a]) :: s.locks[a]
    {
      var left := locks.Keys;
      while left != {}
        invariant left <= locks.Keys <= s.locks.Keys
        invariant forall a | a in locks :: locks[a] == s.locks[a]
        invariant forall a | a in s.locks :: a in locks <==> a in left || Alive(s, s.locks[a])
        decreases left
      {
        var a :| a in left;
        left := left - {a};
        if locks[a] !in alive {
          locks := locks - {a};
        }
      }
    }
  }
}
