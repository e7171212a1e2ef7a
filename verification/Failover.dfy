/** The failover loop: one account after another until one of them answers. */
module Failover {
  import opened Base
  import opened Scoring
  import opened Leases

  // ---------------------------------------------------------------- the environment

  /**
   * The database as one selection reads it: `pinned` is the account of a session row that is recent enough,
   * `recheck` whether the guarded acquire still finds it available, `opens` whether its tokens decrypt.
   */
  datatype View = View(accounts: seq<Account>, clock: Clock, weighted: bool, pinned: Option<nat>, recheck: bool,
      opens: bool)

  /** What comes back for one request; `Gone` is the caller giving up while the program waits. */
  datatype Reply = NoReply | Status(code: nat) | Gone

  datatype Refresh = Refreshed | RefreshFailed | RefreshGone

  /** One attempt's environment; `builds` is whether the reply can be turned into a response. */
  datatype Script = Script(view: View, first: Reply, refresh: Refresh, retry: Reply, builds: bool)

  function IsAuth(code: nat): bool { code == 401 || code == 403 }
  function IsServerError(code: nat): bool { 500 <= code <= 599 }
  function IsSuccess(code: nat): bool { 200 <= code <= 299 }

  // ---------------------------------------------------------------- selection

  predicate PinnedEligible(v: View, id: nat) { exists a | a in v.accounts :: a.id == id && Eligible(a, v.clock.now) }

  /** The pinned account if it can still be acquired, and the best candidate otherwise. */
  function Select(v: View, excluded: set<nat>): (r: Option<nat>)
    ensures r.Some? ==> r.value !in excluded && PinnedEligible(v, r.value)
  {
    if v.pinned.Some? && PinnedEligible(v, v.pinned.value) && v.pinned.value !in excluded && v.recheck then
      if v.opens then v.pinned else None
    else
      var chosen := Choose(v.weighted, v.accounts, excluded, v.clock);
      if chosen.Some? && v.opens then Some(chosen.value.id) else None
  }

  // ---------------------------------------------------------------- one attempt

  datatype Mark = Unmarked | CoolDown | AuthFailed

  datatype Verdict =
    | Abandoned
    | Failed(error: string, mark: Mark, replied: bool)
    | Answered
    | Streaming

  function JudgeStatus(code: nat): Verdict {
    if IsAuth(code) then Failed("auth_failed", AuthFailed, true)
    else if code == 429 then Failed("rate_limited", CoolDown, true)
    else if IsServerError(code) then Failed("upstream_server_error", CoolDown, true)
    else if !IsSuccess(code) then Answered
    else Streaming
  }

  /** An authentication failure is retried once on the same account, after a token refresh. */
  function Judge(s: Script): Verdict {
    match s.first
    case Gone => Abandoned
    case NoReply => Failed("upstream_request_failed", CoolDown, false)
    case Status(code) =>
      if !IsAuth(code) then JudgeStatus(code)
      else
        match s.refresh
        case RefreshGone => Abandoned
        case RefreshFailed => Failed("auth_refresh_failed", AuthFailed, true)
        case Refreshed =>
          match s.retry
          case Gone => Abandoned
          case NoReply => Failed("upstream_retry_failed", CoolDown, false)
          case Status(again) => JudgeStatus(again)
  }

  // ---------------------------------------------------------------- the whole request

  datatype Ending =
    | Dropped
    | NotBuilt
    | NothingSelected
    | ReplyOf(account: nat)
    | StreamOf(account: nat)
    | LastReplyOf(account: nat)
    | LastError

  function ProxyAttempts(active: int, maxAttempts: nat): nat {
    var most := if maxAttempts < 1 then 1 else maxAttempts;
    if active <= 0 then 1 else if active < most then active else most
  }

  /** The response kept from the latest attempt that got one. */
  function Leftover(last: Option<nat>): Ending { if last.Some? then LastReplyOf(last.value) else LastError }

  /** After one attempt the loop goes on, with the reply to fall back on, or the request ends. */
  datatype After = GoOn(last: Option<nat>) | Stop(ending: Ending)

  function AfterAttempt(s: Script, a: nat, last: Option<nat>): After {
    match Judge(s)
    case Abandoned => Stop(Dropped)
    case Failed(_, _, replied) => if !replied then GoOn(last) else if s.builds then GoOn(Some(a)) else Stop(NotBuilt)
    case Answered => Stop(if s.builds then ReplyOf(a) else NotBuilt)
    case Streaming => Stop(if s.builds then StreamOf(a) else NotBuilt)
  }

  /** The accounts tried, one script to each attempt that is left, and how the request ends. */
  function Attempts(scripts: seq<Script>, excluded: set<nat>, last: Option<nat>): (seq<nat>, Ending) {
    if scripts == [] then ([], Leftover(last))
    else
      var selected := Select(scripts[0].view, excluded);
      if selected.None? then ([], if excluded != {} then Leftover(last) else NothingSelected)
      else
        match AfterAttempt(scripts[0], selected.value, last)
        case Stop(ending) => ([selected.value], ending)
        case GoOn(next) =>
          var rest := Attempts(scripts[1..], excluded + {selected.value}, next);
          ([selected.value] + rest.0, rest.1)
  }

  /** Whether the loop goes on to another account after this attempt. */
  predicate GoesOn(s: Script) { Judge(s).Failed? && (Judge(s).replied ==> s.builds) }

  // ---------------------------------------------------------------- main results

  predicate Distinct(s: seq<nat>) { forall i, j | 0 <= i < j < |s| :: s[i] != s[j] }

  /** What holds of the accounts tried with `scripts`, `excluded` having been tried before. */
  ghost predicate Careful(scripts: seq<Script>, excluded: set<nat>, tried: seq<nat>) {
    && |tried| <= |scripts|
    && Distinct(tried)
    && (forall k | 0 <= k < |tried| :: tried[k] !in excluded)
    && (forall k | 0 <= k < |tried| :: PinnedEligible(scripts[k].view, tried[k]))
    && (forall k | 0 <= k < |tried| - 1 :: GoesOn(scripts[k]))
  }

  lemma CarefulStep(scripts: seq<Script>, excluded: set<nat>, a: nat, rest: seq<nat>)
    requires scripts != [] && GoesOn(scripts[0]) && a !in excluded && PinnedEligible(scripts[0].view, a)
    requires Careful(scripts[1..], excluded + {a}, rest)
    ensures Careful(scripts, excluded, [a] + rest)
  {
    hide GoesOn, PinnedEligible;
    var tried := [a] + rest;
    forall k | 0 <= k < |tried|
      ensures tried[k] !in excluded && (k > 0 ==> tried[k] != a) && PinnedEligible(scripts[k].view, tried[k])
      ensures k < |tried| - 1 ==> GoesOn(scripts[k])
    {
      if k > 0 {
        assert tried[k] == rest[k - 1] && scripts[k] == scripts[1..][k - 1];
      }
    }
  }

  lemma {:induction false} AttemptsCareful(scripts: seq<Script>, excluded: set<nat>, last: Option<nat>)
    ensures Careful(scripts, excluded, Attempts(scripts, excluded, last).0)
  {
    if scripts != [] {
      hide Select, Judge, PinnedEligible;
      var s := scripts[0];
      var selected := Select(s.view, excluded);
      if selected.Some? && GoesOn(s) {
        var a, next := selected.value, if Judge(s).replied then selected else last;
        AttemptsCareful(scripts[1..], excluded + {a}, next);
        CarefulStep(scripts, excluded, a, Attempts(scripts[1..], excluded + {a}, next).0);
        hide Careful;
      }
    }
  }

  /**
   * Whatever the database and the upstream do, no account is tried twice, at most the limit are tried, each was
   * eligible when it was chosen, and each but the last failed in a way that is worth retrying.
   */
  lemma TriedOnce(scripts: seq<Script>, active: int, maxAttempts: nat)
    requires |scripts| == ProxyAttempts(active, maxAttempts)
    ensures
      var tried := Attempts(scripts, {}, None).0;
      && Careful(scripts, {}, tried)
      && |tried| <= (if maxAttempts < 1 then 1 else maxAttempts)
      && (active >= 1 ==> |tried| <= active)
  {
    AttemptsCareful(scripts, {}, None);
  }

  predicate Silent(s: Script) { Judge(s).Failed? && !Judge(s).replied }
  predicate Replied(s: Script) { Judge(s).Failed? && Judge(s).replied }

  /** The reply to fall back on is that of the latest account tried that sent one. */
  ghost predicate LatestReply(scripts: seq<Script>, tried: seq<nat>, last: Option<nat>, r: Option<nat>) {
    && |tried| <= |scripts|
    && (|| (r == last && forall k | 0 <= k < |tried| :: Silent(scripts[k]))
        || (exists k | 0 <= k < |tried| ::
              r == Some(tried[k]) && Replied(scripts[k]) && forall m | k < m < |tried| :: Silent(scripts[m])))
  }

  ghost predicate EndsWell(scripts: seq<Script>, last: Option<nat>, tried: seq<nat>, ending: Ending) {
    && |tried| <= |scripts|
    && (match ending
        case ReplyOf(a) => tried != [] && a == tried[|tried| - 1] && Judge(scripts[|tried| - 1]).Answered?
        case StreamOf(a) => tried != [] && a == tried[|tried| - 1] && Judge(scripts[|tried| - 1]).Streaming?
        case Dropped => tried != [] && Judge(scripts[|tried| - 1]).Abandoned?
        case NotBuilt =>
          tried != [] && !scripts[|tried| - 1].builds && !Judge(scripts[|tried| - 1]).Abandoned?
          && !Silent(scripts[|tried| - 1])
        case NothingSelected => tried == []
        case LastReplyOf(a) => LatestReply(scripts, tried, last, Some(a))
        case LastError => LatestReply(scripts, tried, last, None))
  }

  lemma LatestReplyStep(scripts: seq<Script>, tried: seq<nat>, a: nat, last: Option<nat>, r: Option<nat>)
    requires scripts != [] && Judge(scripts[0]).Failed?
    requires LatestReply(scripts[1..], tried, if Judge(scripts[0]).replied then Some(a) else last, r)
    ensures LatestReply(scripts, [a] + tried, last, r)
  {
    var rest, all := scripts[1..], [a] + tried;
    assert Silent(scripts[0]) || Replied(scripts[0]);
    assert Replied(scripts[0]) == Judge(scripts[0]).replied;
    hide Judge, Silent, Replied;
    if k :| && 0 <= k < |tried| && r == Some(tried[k]) && Replied(rest[k])
            && (forall m | k < m < |tried| :: Silent(rest[m]))
    {
      assert r == Some(all[k + 1]) && Replied(scripts[k + 1]);
      forall m | k + 1 < m < |all| ensures Silent(scripts[m]) {
        assert scripts[m] == rest[m - 1];
      }
    } else {
      forall m | 0 < m < |all| ensures Silent(scripts[m]) {
        assert scripts[m] == rest[m - 1];
      }
      if Replied(scripts[0]) {
        assert r == Some(all[0]);
      }
    }
  }

  lemma EndsWellStep(scripts: seq<Script>, last: Option<nat>, a: nat, tried: seq<nat>, ending: Ending)
    requires scripts != [] && Judge(scripts[0]).Failed?
    requires EndsWell(scripts[1..], if Judge(scripts[0]).replied then Some(a) else last, tried, ending)
    requires ending != NothingSelected
    ensures EndsWell(scripts, last, [a] + tried, ending)
  {
    hide Judge, LatestReply;
    assert tried != [] ==> scripts[1..][|tried| - 1] == scripts[|tried|];
    if ending.LastReplyOf? {
      LatestReplyStep(scripts, tried, a, last, Some(ending.account));
    } else if ending.LastError? {
      LatestReplyStep(scripts, tried, a, last, None);
    }
  }

  lemma {:induction false} AttemptsEnd(scripts: seq<Script>, excluded: set<nat>, last: Option<nat>)
    ensures
      var r := Attempts(scripts, excluded, last);
      EndsWell(scripts, last, r.0, r.1) && (excluded != {} ==> r.1 != NothingSelected)
  {
    NoneTried(scripts, last);
    if scripts != [] {
      hide Select, Judge, LatestReply;
      var selected := Select(scripts[0].view, excluded);
      if selected.Some? && GoesOn(scripts[0]) {
        var a, next := selected.value, if Judge(scripts[0]).replied then selected else last;
        AttemptsEnd(scripts[1..], excluded + {a}, next);
        var rest := Attempts(scripts[1..], excluded + {a}, next);
        hide EndsWell;
        EndsWellStep(scripts, last, a, rest.0, rest.1);
      }
    }
  }

  lemma NoneTried(scripts: seq<Script>, last: Option<nat>)
    ensures LatestReply(scripts, [], last, last)
  {}

  /**
   * A stream or a plain reply comes from the last account tried. When every attempt failed, the client gets the
   * latest upstream reply there was, and an error of this program only when no attempt brought one.
   */
  lemma EndingExplained(scripts: seq<Script>)
    ensures
      var r := Attempts(scripts, {}, None);
      EndsWell(scripts, None, r.0, r.1) && (scripts != [] ==> (r.1.NothingSelected? <==> r.0 == []))
  {
    AttemptsEnd(scripts, {}, None);
    if scripts != [] && GoesOn(scripts[0]) {
      var selected := Select(scripts[0].view, {});
      if selected.Some? {
        AttemptsEnd(scripts[1..], {} + {selected.value}, if Judge(scripts[0]).replied then selected else None);
      }
    }
    hide EndsWell, Select, Judge;
  }

  /** The reply an attempt comes down to: the second one when the first asked for fresh tokens and got them. */
  function LastReply(s: Script): Reply {
    if s.first.Status? && IsAuth(s.first.code) && s.refresh.Refreshed? then s.retry else s.first
  }

  predicate WorthRetrying(code: nat) { code in {401, 403, 429} || 500 <= code < 600 }

  /** Which replies make the loop try another account, and which ones the client gets to see. */
  lemma RetriedExactly(s: Script)
    requires !Judge(s).Abandoned?
    ensures Judge(s).Failed? <==> LastReply(s).NoReply? || (LastReply(s).Status? && WorthRetrying(LastReply(s).code))
    ensures Judge(s).Failed? ==> (Judge(s).replied <==> LastReply(s).Status?)
    ensures Judge(s).Streaming? <==> LastReply(s).Status? && 200 <= LastReply(s).code < 300
  {}

  /** The request is given up exactly when its caller is gone while an answer or fresh tokens are awaited. */
  lemma AbandonedExactly(s: Script)
    ensures Judge(s).Abandoned? <==>
              || s.first.Gone?
              || (s.first.Status? && s.first.code in {401, 403}
                  && (s.refresh.RefreshGone? || (s.refresh.Refreshed? && s.retry.Gone?)))
  {}

  /** What a failed attempt leaves on its account: a failed authentication, or a time to cool down. */
  lemma MarkedExactly(s: Script)
    requires Judge(s).Failed?
    ensures Judge(s).mark.AuthFailed? <==> LastReply(s).Status? && LastReply(s).code in {401, 403}
    ensures Judge(s).mark.CoolDown? <==> !(LastReply(s).Status? && LastReply(s).code in {401, 403})
  {}

  /** How many attempts a request may make: one, and more while there are accounts and the limit allows. */
  lemma AttemptsAllowedExactly(active: int, maxAttempts: nat, n: nat)
    ensures n <= ProxyAttempts(active, maxAttempts) <==> n <= 1 || (n <= active && n <= maxAttempts)
  {}

  // ---------------------------------------------------------------- which account each attempt uses

  /** The session's own account can be used: eligible, not tried before, and still to be acquired. */
  ghost predicate KeepsSession(v: View, tried: set<nat>) {
    exists a | a in v.accounts ::
      v.pinned == Some(a.id) && Eligible(a, v.clock.now) && a.id !in tried && v.recheck
  }

  /** `id` is the candidate that comes before all others. */
  ghost predicate ComesFirst(v: View, tried: set<nat>, id: nat) {
    exists a | a in v.accounts ::
      && a.id == id && Candidate(a, tried, v.clock.now)
      && forall b | b in v.accounts && Candidate(b, tried, v.clock.now) && b != a :: Before(v.weighted, a, b, v.clock)
  }

  /** The account an attempt has to use: the session's own if it can, and otherwise the first candidate. */
  ghost predicate RightAccount(v: View, tried: set<nat>, id: nat) {
    v.opens && if KeepsSession(v, tried) then v.pinned == Some(id) else ComesFirst(v, tried, id)
  }

  /** There is no account to use, or its tokens cannot be opened. */
  ghost predicate NoAccount(v: View, tried: set<nat>) {
    !v.opens || (!KeepsSession(v, tried) && forall a | a in v.accounts :: !Candidate(a, tried, v.clock.now))
  }

  lemma SelectExactly(v: View, tried: set<nat>)
    requires UniqueIds(v.accounts)
    ensures match Select(v, tried) case None => NoAccount(v, tried) case Some(id) => RightAccount(v, tried, id)
  {
    ChosenFirst(v.weighted, v.accounts, tried, v.clock);
    hide Eligible, Before;
  }

  function TriedBefore(tried: seq<nat>, k: nat): set<nat>
    requires k <= |tried|
  { set m | 0 <= m < k :: tried[m] }

  /** Every attempt uses the right account, and no attempt is left out while there is one. */
  ghost predicate Rightly(scripts: seq<Script>, before: set<nat>, tried: seq<nat>) {
    && |tried| <= |scripts|
    && (forall k | 0 <= k < |tried| :: RightAccount(scripts[k].view, before + TriedBefore(tried, k), tried[k]))
    && (|tried| < |scripts| && (forall k | 0 <= k < |tried| :: GoesOn(scripts[k])) ==>
          NoAccount(scripts[|tried|].view, before + TriedBefore(tried, |tried|)))
  }

  lemma TriedShift(before: set<nat>, a: nat, rest: seq<nat>, k: nat)
    requires k <= |rest|
    ensures before + TriedBefore([a] + rest, k + 1) == before + {a} + TriedBefore(rest, k)
    ensures before + TriedBefore([a] + rest, 0) == before
  {
    var tried := [a] + rest;
    assert tried[0] == a && forall m | 0 <= m < k :: rest[m] == tried[m + 1];
  }

  lemma RightlyStep(scripts: seq<Script>, before: set<nat>, a: nat, rest: seq<nat>)
    requires scripts != [] && RightAccount(scripts[0].view, before, a) && Rightly(scripts[1..], before + {a}, rest)
    ensures Rightly(scripts, before, [a] + rest)
  {
    hide RightAccount, NoAccount, GoesOn, TriedBefore;
    var tried := [a] + rest;
    TriedShift(before, a, rest, 0);
    TriedShift(before, a, rest, |rest|);
    forall k | 0 <= k < |tried| ensures RightAccount(scripts[k].view, before + TriedBefore(tried, k), tried[k]) {
      if k > 0 {
        TriedShift(before, a, rest, k - 1);
        assert tried[k] == rest[k - 1] && scripts[1..][k - 1] == scripts[k];
      }
    }
    assert forall k | 0 <= k < |scripts| - 1 :: scripts[1..][k] == scripts[k + 1];
  }

  /** Which account each attempt uses, and when there are no more of them. */
  lemma {:induction false} AttemptsRightly(scripts: seq<Script>, before: set<nat>, last: Option<nat>)
    requires forall s | s in scripts :: UniqueIds(s.view.accounts)
    ensures Rightly(scripts, before, Attempts(scripts, before, last).0)
  {
    if scripts != [] {
      var s := scripts[0];
      SelectExactly(s.view, before);
      var selected := Select(s.view, before);
      hide Select, Judge, RightAccount, NoAccount, UniqueIds;
      assert before + TriedBefore([], 0) == before;
      if selected.Some? && GoesOn(s) {
        var a, next := selected.value, if Judge(s).replied then selected else last;
        AttemptsRightly(scripts[1..], before + {a}, next);
        RightlyStep(scripts, before, a, Attempts(scripts[1..], before + {a}, next).0);
        hide Rightly;
      } else if selected.Some? {
        assert before + TriedBefore([selected.value], 0) == before;
      }
    }
  }

  /**
    A request stays on its session's account while that can be used, and goes to the first candidate when
    it cannot; it goes on to the next until an attempt ends the request, none is left, or the limit is reached.
   */
  lemma TriedRightly(scripts: seq<Script>)
    requires forall s | s in scripts :: UniqueIds(s.view.accounts)
    ensures Rightly(scripts, {}, Attempts(scripts, {}, None).0)
  {
    AttemptsRightly(scripts, {}, None);
  }

  // ---------------------------------------------------------------- the loop with its leases

  /** The log line an attempt leaves behind before its lease is released. */
  function LogOf(s: Script, account: nat): seq<(nat, string)> {
    match Judge(s)
    case Failed(error, _, _) => [(account, error)]
    case Answered => [(account, "upstream_error")]
    case _ => []
  }

  function LogsOf(scripts: seq<Script>, tried: seq<nat>): seq<(nat, string)>
    requires |tried| <= |scripts|
  {
    if tried == [] then []
    else LogsOf(scripts, tried[..|tried| - 1]) + LogOf(scripts[|tried| - 1], tried[|tried| - 1])
  }

  lemma LogsStart(scripts: seq<Script>)
    ensures LogsOf(scripts, []) == []
  {}

  lemma LogsStep(scripts: seq<Script>, tried: seq<nat>, a: nat)
    requires |tried| < |scripts|
    ensures LogsOf(scripts, tried + [a]) == LogsOf(scripts, tried) + LogOf(scripts[|tried|], a)
  {
    assert (tried + [a])[..|tried|] == tried;
  }

  /** Why an attempt failed, in the words of the log. */
  ghost function Reason(s: Script): string {
    match LastReply(s)
    case Status(code) =>
      if code in {401, 403} then (if s.refresh.RefreshFailed? then "auth_refresh_failed" else "auth_failed")
      else if code == 429 then "rate_limited"
      else if 500 <= code < 600 then "upstream_server_error"
      else "upstream_error"
    case _ => if LastReply(s) == s.first && !s.first.Status? then "upstream_request_failed" else "upstream_retry_failed"
  }

  /** Each attempt leaves one line under its account, with the reason, unless it is given up or streams its answer. */
  lemma LoggedExactly(s: Script, account: nat)
    ensures LogOf(s, account)
         == if Judge(s).Abandoned? || (LastReply(s).Status? && 200 <= LastReply(s).code < 300) then []
            else [(account, Reason(s))]
  {}

  /** Leases of finished attempts have been released, once each. */
  ghost predicate AllReleased(leases: seq<AccountLease>, tried: seq<nat>)
    reads leases
  {
    && |leases| == |tried|
    && forall k | 0 <= k < |leases| :: leases[k].account == tried[k] && leases[k].Valid() && !leases[k].armed
  }

  /** Leases the account for one attempt; only a stream that could be built takes the lease along. */
  method LeaseFor(s: Script, account: nat, last: Option<nat>) returns (lease: AccountLease)
    ensures fresh(lease) && lease.account == account && lease.Valid()
    ensures lease.armed <==> AfterAttempt(s, account, last) == Stop(StreamOf(account))
    ensures AfterAttempt(s, account, last).Stop? && AfterAttempt(s, account, last).ending.StreamOf? ==> lease.armed
  {
    lease := new AccountLease(account);
    match Judge(s)
    case Abandoned => lease.Drop();
    case Failed(_, _, _) => lease.Release();
    case Answered => lease.Release();
    case Streaming => if !s.builds { lease.Drop(); }
  }

  /** The whole request's outcome is what has been tried followed by the outcome of the attempts from `i` on. */
  ghost predicate Onward(scripts: seq<Script>, i: nat, tried: seq<nat>, excluded: set<nat>, last: Option<nat>)
    requires i <= |scripts|
  {
    var rest := Attempts(scripts[i..], excluded, last);
    Attempts(scripts, {}, None).0 == tried + rest.0 && Attempts(scripts, {}, None).1 == rest.1
  }

  ghost predicate Outcome(scripts: seq<Script>, tried: seq<nat>, ending: Ending) {
    tried == Attempts(scripts, {}, None).0 && ending == Attempts(scripts, {}, None).1
  }

  lemma OnwardStart(scripts: seq<Script>)
    ensures Onward(scripts, 0, [], {}, None)
  {
    assert scripts[0..] == scripts;
  }

  lemma OnwardStep(scripts: seq<Script>, i: nat, tried: seq<nat>, excluded: set<nat>, last: Option<nat>, a: nat)
    requires i < |scripts| && Onward(scripts, i, tried, excluded, last) && Select(scripts[i].view, excluded) == Some(a)
    ensures
      match AfterAttempt(scripts[i], a, last)
      case Stop(ending) => Outcome(scripts, tried + [a], ending)
      case GoOn(next) => Onward(scripts, i + 1, tried + [a], excluded + {a}, next)
  {
    hide Select, AfterAttempt;
    assert scripts[i..][0] == scripts[i] && scripts[i..][1..] == scripts[i + 1..];
  }

  lemma OnwardEnd(scripts: seq<Script>, i: nat, tried: seq<nat>, excluded: set<nat>, last: Option<nat>)
    requires i <= |scripts| && Onward(scripts, i, tried, excluded, last)
    requires i < |scripts| ==> Select(scripts[i].view, excluded).None?
    ensures Outcome(scripts, tried, if i < |scripts| && excluded == {} then NothingSelected else Leftover(last))
  {
    hide Select;
  }

  /**
   * One request. Every account tried is leased, and its lease is released exactly once by the end of the
   * request, on every path, unless the response streams: then the stream holds the last lease.
   */
  method ProxyRequest(scripts: seq<Script>, active: int, maxAttempts: nat)
    returns (tried: seq<nat>, ending: Ending, leases: seq<AccountLease>, held: Option<AccountLease>,
        logs: seq<(nat, string)>)
    requires |scripts| == ProxyAttempts(active, maxAttempts)
    ensures Outcome(scripts, tried, ending)
    ensures |tried| <= |scripts| && logs == LogsOf(scripts, tried)
    ensures held.Some? <==> ending.StreamOf?
    ensures forall l | l in leases :: fresh(l)
    ensures held.None? ==> AllReleased(leases, tried)
    ensures held.Some? ==>
              && fresh(held.value) && held.value !in leases
              && held.value.Valid() && held.value.armed && held.value.account == ending.account
              && tried != [] && ending.account == tried[|tried| - 1]
              && AllReleased(leases, tried[..|tried| - 1])
  {
    hide ProxyAttempts, Select, AfterAttempt, LogOf, LogsOf, Onward, Outcome;
    tried, leases, held, logs := [], [], None, [];
    var excluded, last := {}, None;
    var i := 0;
    OnwardStart(scripts);
    assert LogsOf(scripts, []) == [] by { LogsStart(scripts); }
    while i < |scripts|
      invariant 0 <= i <= |scripts| && |tried| == i
      invariant logs == LogsOf(scripts, tried)
      invariant AllReleased(leases, tried)
      invariant forall l | l in leases :: fresh(l)
      invariant held.None?
      invariant Onward(scripts, i, tried, excluded, last)
    {
      var s := scripts[i];
      var selected := Select(s.view, excluded);
      if selected.None? {
        OnwardEnd(scripts, i, tried, excluded, last);
        ending := if excluded != {} then Leftover(last) else NothingSelected;
        return;
      }
      var a := selected.value;
      OnwardStep(scripts, i, tried, excluded, last, a);
      LogsStep(scripts, tried, a);
      var lease := LeaseFor(s, a, last);
      tried, logs := tried + [a], logs + LogOf(s, a);
      match AfterAttempt(s, a, last)
      case Stop(end) =>
        ending := end;
        if lease.armed { held := Some(lease); } else { leases := leases + [lease]; }
        return;
      case GoOn(next) =>
        leases, excluded, last := leases + [lease], excluded + {a}, next;
        i := i + 1;
    }
    OnwardEnd(scripts, i, tried, excluded, last);
    ending := Leftover(last);
  }
}
