/** In-flight counts and the leases that account for them, over every interleaving of requests. */
module Leases {
  import opened Base

  /** Held by a request; given up, its release still to run; released; or its release failed for good. */
  datatype Phase = Held | Owed | Released | Lost

  datatype Lease = Lease(account: nat, phase: Phase)

  /** The in-flight column of each account row, and every lease ever taken. */
  datatype Pool = Pool(inflight: map<nat, int>, leases: map<nat, Lease>, retired: set<nat>)

  datatype Step =
    | Acquire(account: nat, lease: nat)
    | GiveUp(lease: nat)
    | RunRelease(lease: nat)
    | FailRelease(lease: nat)
    | AddRow(account: nat)
    | DeleteRow(account: nat)

  ghost predicate Enabled(p: Pool, s: Step) {
    match s
    case Acquire(account, lease) => account in p.inflight && lease !in p.leases
    case GiveUp(lease) => lease in p.leases && p.leases[lease].phase.Held?
    case RunRelease(lease) => lease in p.leases && p.leases[lease].phase.Owed?
    case FailRelease(lease) => lease in p.leases && p.leases[lease].phase.Owed?
    case AddRow(account) => account !in p.inflight && account !in p.retired
    case DeleteRow(account) => account in p.inflight
  }

  /** `MAX(0, inflight_count - 1)` on the account's row, if it is still there. */
  function Decrement(inflight: map<nat, int>, account: nat): map<nat, int> {
    if account !in inflight then inflight
    else inflight[account := if inflight[account] - 1 < 0 then 0 else inflight[account] - 1]
  }

  function Next(p: Pool, s: Step): Pool
    requires Enabled(p, s)
  {
    match s
    case Acquire(account, lease) =>
      p.(inflight := p.inflight[account := p.inflight[account] + 1], leases := p.leases[lease := Lease(account, Held)])
    case GiveUp(lease) => p.(leases := p.leases[lease := p.leases[lease].(phase := Owed)])
    case RunRelease(lease) =>
      p.(inflight := Decrement(p.inflight, p.leases[lease].account),
         leases := p.leases[lease := p.leases[lease].(phase := Released)])
    case FailRelease(lease) => p.(leases := p.leases[lease := p.leases[lease].(phase := Lost)])
    case AddRow(account) => p.(inflight := p.inflight[account := 0])
    case DeleteRow(account) => p.(inflight := p.inflight - {account}, retired := p.retired + {account})
  }

  ghost predicate IsRun(pools: seq<Pool>, steps: seq<Step>) {
    && |pools| == |steps| + 1
    && forall i | 0 <= i < |steps| :: Enabled(pools[i], steps[i]) && pools[i + 1] == Next(pools[i], steps[i])
  }

  /** After the reset at start-up: all counts are zero and there is no lease. */
  predicate Start(p: Pool) {
    p.leases == map[] && (forall a | a in p.inflight :: p.inflight[a] == 0) && p.inflight.Keys !! p.retired
  }

  // ---------------------------------------------------------------- counts

  /** Leases of an account that are not released yet, whether their release failed or not. */
  function Unreleased(p: Pool, account: nat): set<nat> {
    set l | l in p.leases && p.leases[l].account == account && !p.leases[l].phase.Released?
  }

  function Outstanding(p: Pool, account: nat): set<nat> {
    set l | l in p.leases && p.leases[l].account == account && (p.leases[l].phase.Held? || p.leases[l].phase.Owed?)
  }

  function LostOf(p: Pool, account: nat): set<nat> {
    set l | l in p.leases && p.leases[l].account == account && p.leases[l].phase.Lost?
  }

  ghost predicate Counted(p: Pool) {
    && p.inflight.Keys !! p.retired
    && (forall a | a in p.inflight :: p.inflight[a] == |Unreleased(p, a)|)
    && (forall l | l in p.leases :: p.leases[l].account in p.inflight || p.leases[l].account in p.retired)
  }

  lemma SizeWith(s: set<nat>, x: nat)
    ensures |s + {x}| == if x in s then |s| else |s| + 1
    ensures |s - {x}| == if x in s then |s| - 1 else |s|
  {
    if x in s { assert s + {x} == s; } else { assert s - {x} == s; }
  }

  /** How one step changes the unreleased leases of an account. */
  lemma UnreleasedAfter(p: Pool, s: Step, a: nat)
    requires Enabled(p, s)
    ensures
      Unreleased(Next(p, s), a) ==
      if s.Acquire? && s.account == a then Unreleased(p, a) + {s.lease}
      else if s.RunRelease? && p.leases[s.lease].account == a then Unreleased(p, a) - {s.lease}
      else Unreleased(p, a)
    ensures s.RunRelease? && p.leases[s.lease].account == a ==> s.lease in Unreleased(p, a)
    ensures s.Acquire? ==> s.lease !in Unreleased(p, a)
  {
    hide Decrement;
  }

  lemma CountAfter(p: Pool, s: Step, a: nat)
    requires Enabled(p, s) && Counted(p) && a in Next(p, s).inflight && !s.AddRow?
    ensures a in p.inflight && Next(p, s).inflight[a] == |Unreleased(Next(p, s), a)|
    ensures s.RunRelease? && p.leases[s.lease].account == a ==> p.inflight[a] >= 1
  {
    UnreleasedAfter(p, s, a);
    if s.Acquire? || s.RunRelease? {
      SizeWith(Unreleased(p, a), s.lease);
    }
    hide Unreleased;
  }

  lemma StepKeepsCounted(p: Pool, s: Step)
    requires Enabled(p, s) && Counted(p)
    ensures Counted(Next(p, s))
    ensures s.RunRelease? && p.leases[s.lease].account in p.inflight ==> p.inflight[p.leases[s.lease].account] >= 1
  {
    var after := Next(p, s);
    forall a | a in after.inflight
      ensures after.inflight[a] == |Unreleased(after, a)|
      ensures s.RunRelease? && p.leases[s.lease].account == a ==> p.inflight[a] >= 1
    {
      if s.AddRow? {
        assert Unreleased(after, a) == if a == s.account then {} else Unreleased(p, a);
      } else {
        CountAfter(p, s, a);
      }
    }
    hide Unreleased;
    assert after.leases.Keys >= p.leases.Keys;
  }

  lemma {:induction false} RunKeepsCounted(pools: seq<Pool>, steps: seq<Step>, i: nat)
    requires IsRun(pools, steps) && i <= |steps| && Start(pools[0])
    ensures Counted(pools[i])
  {
    if i == 0 {
      forall a | a in pools[0].inflight ensures pools[0].inflight[a] == |Unreleased(pools[0], a)| {
        assert Unreleased(pools[0], a) == {};
      }
    } else {
      RunKeepsCounted(pools, steps, i - 1);
      hide Counted, Next;
      StepKeepsCounted(pools[i - 1], steps[i - 1]);
    }
  }

  /**
   * In-flight counts are the outstanding leases plus the releases that failed for good; so they are never negative,
   * and they equal the outstanding leases exactly while no release has failed.
   */
  lemma InflightExact(pools: seq<Pool>, steps: seq<Step>, i: nat, account: nat)
    requires IsRun(pools, steps) && i <= |steps| && Start(pools[0]) && account in pools[i].inflight
    ensures pools[i].inflight[account] == |Outstanding(pools[i], account)| + |LostOf(pools[i], account)|
    ensures pools[i].inflight[account] == |Outstanding(pools[i], account)| <==> LostOf(pools[i], account) == {}
  {
    RunKeepsCounted(pools, steps, i);
    assert Unreleased(pools[i], account) == Outstanding(pools[i], account) + LostOf(pools[i], account);
    assert Outstanding(pools[i], account) !! LostOf(pools[i], account);
  }

  /** The clamp at zero never acts: every release finds a count of at least one. */
  lemma ClampNeverActs(pools: seq<Pool>, steps: seq<Step>, i: nat)
    requires IsRun(pools, steps) && i < |steps| && Start(pools[0]) && steps[i].RunRelease?
    ensures
      var a := pools[i].leases[steps[i].lease].account;
      a in pools[i].inflight ==> a in pools[i + 1].inflight && pools[i + 1].inflight[a] == pools[i].inflight[a] - 1
  {
    RunKeepsCounted(pools, steps, i);
    StepKeepsCounted(pools[i], steps[i]);
  }

  // ---------------------------------------------------------------- the lease object

  /** Gives the account back once, when it is released or when it goes out of scope. */
  class AccountLease {
    const account: nat
    var armed: bool
    var releases: nat

    ghost predicate Valid()
      reads this
    { releases == if armed then 0 else 1 }

    constructor (account: nat)
      ensures Valid() && armed && this.account == account
    {
      this.account, armed, releases := account, true, 0;
    }

    /** Consumes the lease; its `Drop` follows at once. */
    method Release()
      requires Valid() && armed
      modifies this
      ensures Valid() && !armed
    {
      armed, releases := false, releases + 1;
      Drop();
    }

    /** The form that waits for the database: when the update fails, dropping the lease tries again. */
    method ReleaseNow(updated: bool)
      requires Valid() && armed
      modifies this
      ensures Valid() && !armed
    {
      if updated {
        armed, releases := false, releases + 1;
      }
      Drop();
    }

    method Drop()
      requires Valid()
      modifies this
      ensures Valid() && !armed
    {
      if armed {
        armed, releases := false, releases + 1;
      }
    }
  }
}
