/** What each registry operation leaves behind, and which keys a connection is found under as it is re-rooted. */
module RegistryEffects {
  import opened Base
  import opened Registry

  ghost predicate Indexed(r: Reg, t: Token, k: Key) { k in r.byKey && t in r.byKey[k] }

  // ---------------------------------------------------------------- single operations

  /** A new connection is filed under the root of its own root hash, else the least root of an alias, else its hash. */
  lemma FiledExactly(rootOf: map<Key, Key>, root: Key, aliases: set<Key>)
    ensures var filed := CanonicalRoot(rootOf, root, aliases);
            && (root in rootOf ==> filed == rootOf[root])
            && (root !in rootOf && (exists a :: a in aliases && a in rootOf) ==>
                  && (exists a | a in aliases && a in rootOf :: rootOf[a] == filed)
                  && (forall a | a in aliases && a in rootOf :: filed <= rootOf[a]))
            && (root !in rootOf && (forall a | a in aliases :: a !in rootOf) ==> filed == root)
  {
    forall a | a in aliases && a in rootOf ensures rootOf[a] in MappedRoots(rootOf, aliases) {}
  }

  /** Everything a registration changes. */
  lemma RegisterLeaves(r: Reg, root: Key, aliases: set<Key>, account: Account, generation: int)
    ensures var after, filed := Register(r, root, aliases, account, generation), CanonicalRoot(r.rootOf, root, aliases);
            var t := after.nextToken;
            && t == TokenAfter(r.nextToken) && 1 <= t < TOKEN_LIMIT
                && (r.nextToken < TOKEN_LIMIT - 1 ==> t == r.nextToken + 1)
            && after.conns.Keys == r.conns.Keys + {t}
            && (forall u | u in r.conns && u != t :: after.conns[u] == r.conns[u])
            && after.conns[t].root == filed && after.conns[t].aliases == aliases + {filed}
            && after.conns[t].account == account && after.conns[t].generation == generation
            && (forall u, k :: Indexed(after, u, k) <==> Indexed(r, u, k) || (u == t && k in aliases + {filed}))
            && (forall k :: k in after.rootOf <==> k in r.rootOf || k in aliases + {filed})
            && (forall k | k in after.rootOf :: after.rootOf[k] == if k in r.rootOf then r.rootOf[k] else filed)
            && after.recorded == r.recorded
  {
    hide CanonicalRoot, InitialSignal;
  }

  /** The signal names `k`, or a key that is filed under `k`. */
  ghost predicate Covers(r: Reg, root: Key, aliases: set<Key>, k: Key) {
    exists named | named in aliases + {root} :: k == named || (named in r.rootOf && r.rootOf[named] == k)
  }

  lemma CoversExactly(r: Reg, root: Key, aliases: set<Key>, k: Key)
    ensures k in MatchKeys(r.rootOf, root, aliases) <==> Covers(r, root, aliases, k)
  {}

  /** A signal matches what is found under the keys it names and under the roots of these. */
  lemma MatchedExactly(r: Reg, root: Key, aliases: set<Key>, t: Token)
    ensures t in Matching(r, root, aliases) <==> exists k | Covers(r, root, aliases, k) :: Indexed(r, t, k)
  {
    forall k ensures k in MatchKeys(r.rootOf, root, aliases) <==> Covers(r, root, aliases, k) {
      CoversExactly(r, root, aliases, k);
    }
    hide Covers, MatchKeys;
  }

  /** Everything a signal changes. */
  lemma SignalLeaves(r: Reg, root: Key, aliases: set<Key>, generation: int)
    ensures var after, matched := SignalReroute(r, root, aliases, generation), Matching(r, root, aliases);
            && after.nextToken == r.nextToken && after.conns.Keys == r.conns.Keys
            && (forall t | t in r.conns && t !in matched :: after.conns[t] == r.conns[t])
            && (forall t | t in r.conns && t in matched ::
                  var was, now := r.conns[t], after.conns[t];
                  && now.root == root && now.aliases == was.aliases && now.account == was.account
                  && now.generation == was.generation
                  && now.signal == if was.generation < generation then Some(generation) else was.signal)
            && (forall t, k :: Indexed(after, t, k) <==> Indexed(r, t, k) || (k == root && t in matched))
            && (forall k :: k in after.rootOf <==> k in r.rootOf || k in aliases + {root})
            && (forall k | k in after.rootOf ::
                  after.rootOf[k] == if k in aliases + {root} then root else r.rootOf[k])
            && after.recorded.Keys == r.recorded.Keys + {root}
            && (forall k | k in r.recorded && k != root :: after.recorded[k] == r.recorded[k])
            && generation <= after.recorded[root] && (root in r.recorded ==> r.recorded[root] <= after.recorded[root])
            && (after.recorded[root] == generation || (root in r.recorded && after.recorded[root] == r.recorded[root]))
  {
    hide Matching;
  }

  /** Everything a removal changes: the connection, and its places under its aliases and its present root. */
  lemma UnregisterLeaves(r: Reg, token: Token)
    ensures var after := Unregister(r, token);
            && after.nextToken == r.nextToken && after.rootOf == r.rootOf && after.recorded == r.recorded
            && after.conns.Keys == r.conns.Keys - {token}
                && (forall t | t in after.conns :: after.conns[t] == r.conns[t])
            && (forall t, k :: Indexed(after, t, k) <==>
                  && Indexed(r, t, k)
                  && !(t == token && t in r.conns && k in r.conns[t].aliases + {r.conns[t].root}))
  {
    if token in r.conns {
      var keys := r.conns[token].aliases + {r.conns[token].root};
      forall t, k
        ensures Indexed(Unregister(r, token), t, k) <==> Indexed(r, t, k) && !(t == token && k in keys)
      {
        UnindexedExactly(r.byKey, keys, token, t, k);
      }
      hide Indexed;
    }
  }

  lemma UnindexedExactly(byKey: map<Key, set<Token>>, keys: set<Key>, token: Token, t: Token, k: Key)
    ensures var left := Unindex(byKey, keys, token);
            k in left && t in left[k] <==> k in byKey && t in byKey[k] && !(t == token && k in keys)
  {
    assert k in byKey && t in byKey[k] && t != token ==> t in byKey[k] - {token};
  }

  // ---------------------------------------------------------------- tokens

  /** Tokens are counted up; none beyond the count is live or filed. */
  ghost predicate Counted(r: Reg, n: nat) {
    && r.nextToken <= n
    && (forall t | t in r.conns :: t <= r.nextToken)
    && (forall t: Token, k: Key | Indexed(r, t, k) :: t <= r.nextToken)
  }

  lemma {:induction false} RunCounted(states: seq<Reg>, ops: seq<Op>, n: nat)
    requires IsRun(states, ops) && n < |states| && |ops| < TOKEN_LIMIT
    ensures Counted(states[n], n)
  {
    if n > 0 {
      RunCounted(states, ops, n - 1);
      assert StepAt(states, ops, n - 1);
      var r := states[n - 1];
      hide Register, SignalReroute, Unregister, Matching;
      match ops[n - 1]
      case RegisterOp(root, aliases, account, generation) => RegisterLeaves(r, root, aliases, account, generation);
      case SignalOp(root, aliases, generation) =>
        SignalLeaves(r, root, aliases, generation);
        forall t | t in Matching(r, root, aliases) ensures t <= r.nextToken { MatchedExactly(r, root, aliases, t); }
      case UnregisterOp(token) => UnregisterLeaves(r, token);
    }
  }

  // ---------------------------------------------------------------- the index of one connection

  /** Step `i` registers connection `t`, which then lives up to state `n`. */
  ghost predicate LivesFrom(states: seq<Reg>, ops: seq<Op>, i: nat, n: nat, t: Token)
    requires i < n < |states| == |ops| + 1
  {
    ops[i].RegisterOp? && TokenAfter(states[i].nextToken) == t && LiveThroughout(states, ops, i + 1, n, t)
  }

  /** `k` is an alias of the connection, or has been its root at some moment. */
  ghost predicate OnceUnder(states: seq<Reg>, i: nat, n: nat, t: Token, k: Key)
    requires i < n < |states| && forall m | i < m <= n :: t in states[m].conns
  {
    k in states[n].conns[t].aliases || exists m | i < m <= n :: states[m].conns[t].root == k
  }

  lemma OtherStep(r: Reg, op: Op, t: Token)
    requires t in r.conns && t in Next(r, op).conns && (op.RegisterOp? ==> TokenAfter(r.nextToken) != t)
    ensures Next(r, op).conns[t].aliases == r.conns[t].aliases
    ensures forall k :: Indexed(Next(r, op), t, k) <==> Indexed(r, t, k) || k == Next(r, op).conns[t].root
    requires Covered(r)
  {
    hide Register, SignalReroute, Unregister, Matching;
    match op
    case RegisterOp(root, aliases, account, generation) => RegisterLeaves(r, root, aliases, account, generation);
    case SignalOp(root, aliases, generation) => SignalLeaves(r, root, aliases, generation);
    case UnregisterOp(token) => UnregisterLeaves(r, token);
  }

  /** A live connection is found under its aliases and under every root it was ever filed under, and nowhere else. */
  lemma {:induction false} IndexedExactly(states: seq<Reg>, ops: seq<Op>, i: nat, n: nat, t: Token, k: Key)
    requires IsRun(states, ops) && |ops| < TOKEN_LIMIT && i < n < |states| && LivesFrom(states, ops, i, n, t)
    ensures Indexed(states[n], t, k) <==> OnceUnder(states, i, n, t, k)
    decreases n
  {
    assert StepAt(states, ops, n - 1);
    var r, op := states[n - 1], ops[n - 1];
    hide Indexed;
    if n == i + 1 {
      RunCounted(states, ops, i);
      hide Register;
      RegisterLeaves(r, op.root, op.aliases, op.account, op.generation);
    } else {
      IndexedExactly(states, ops, i, n - 1, t, k);
      RunCovers(states, ops, n - 1);
      hide Next;
      OtherStep(r, op, t);
    }
  }

  /** A signal reaches a live connection exactly when it covers an alias of it, or a root it was ever filed under. */
  lemma ReachedExactly(states: seq<Reg>, ops: seq<Op>, i: nat, n: nat, t: Token, root: Key, aliases: set<Key>)
    requires IsRun(states, ops) && |ops| < TOKEN_LIMIT && i < n < |states| && LivesFrom(states, ops, i, n, t)
    ensures t in Matching(states[n], root, aliases) <==>
              exists k | Covers(states[n], root, aliases, k) :: OnceUnder(states, i, n, t, k)
  {
    assert forall m | i < m <= n :: t in states[m].conns;
    hide Matching, Covers, Indexed, OnceUnder, LivesFrom, IsRun;
    MatchedExactly(states[n], root, aliases, t);
    forall k ensures Indexed(states[n], t, k) <==> OnceUnder(states, i, n, t, k) {
      IndexedExactly(states, ops, i, n, t, k);
    }
  }

  /** The registry remembers nothing of the connection. */
  ghost predicate Forgotten(r: Reg, t: Token) { t !in r.conns && forall k :: !Indexed(r, t, k) }

  /**
    A connection that goes is forgotten if and only if each root it was ever filed under is an alias of it
    or its present root. Otherwise it is still counted under a former one.
   */
  lemma ForgottenExactly(states: seq<Reg>, ops: seq<Op>, i: nat, n: nat, t: Token)
    requires IsRun(states, ops) && |ops| < TOKEN_LIMIT && i < n < |ops| && LivesFrom(states, ops, i, n, t)
    requires ops[n] == UnregisterOp(t)
    ensures Forgotten(states[n + 1], t) <==>
              forall m | i < m <= n ::
                states[m].conns[t].root in states[n].conns[t].aliases + {states[n].conns[t].root}
  {
    assert StepAt(states, ops, n);
    forall k ensures Indexed(states[n], t, k) <==> OnceUnder(states, i, n, t, k) {
      IndexedExactly(states, ops, i, n, t, k);
    }
    hide Indexed, Unregister;
    UnregisterLeaves(states[n], t);
    if Forgotten(states[n + 1], t) {
      forall m | i < m <= n
        ensures states[m].conns[t].root in states[n].conns[t].aliases + {states[n].conns[t].root}
      {
        var k := states[m].conns[t].root;
        assert OnceUnder(states, i, n, t, k) && !Indexed(states[n + 1], t, k);
      }
    }
  }

  const TWICE_OPS: seq<Op> := [RegisterOp(1, {1}, 0, 0), SignalOp(2, {1}, 1), SignalOp(3, {1}, 2), UnregisterOp(1)]

  lemma FirstRegistered(r: Reg)
    requires r == Register(EMPTY, 1, {1}, 0, 0)
    ensures r.nextToken == 1 && 1 in r.conns && r.conns[1].aliases == {1} && r.conns[1].root == 1
  {
    FiledExactly(map[], 1, {1});
    assert {1} + {1} == {1};
    RegisterLeaves(EMPTY, 1, {1}, 0, 0);
    hide Register;
  }

  lemma FirstMoved(r: Reg, root: Key, generation: int)
    requires Covered(r) && 1 in r.conns && r.conns[1].aliases == {1} && r.nextToken == 1
    ensures var after := SignalReroute(r, root, {1}, generation);
            1 in after.conns && after.conns[1].aliases == {1} && after.conns[1].root == root && after.nextToken == 1
  {
    SharedKeyMatches(r, root, {1}, 1, 1);
    SignalLeaves(r, root, {1}, generation);
    hide SignalReroute, Matching;
  }

  lemma TwiceStates(states: seq<Reg>)
    requires IsRun(states, TWICE_OPS)
    ensures |states| == 5 && states[0] == EMPTY && states[1] == Register(EMPTY, 1, {1}, 0, 0)
    ensures states[2] == SignalReroute(states[1], 2, {1}, 1) && states[3] == SignalReroute(states[2], 3, {1}, 2)
  {
    hide Register, SignalReroute;
    assert StepAt(states, TWICE_OPS, 0) && StepAt(states, TWICE_OPS, 1) && StepAt(states, TWICE_OPS, 2);
  }

  lemma TwiceLives(states: seq<Reg>)
    requires |states| == 5 && states[0] == EMPTY && forall m | 1 <= m <= 3 :: 1 in states[m].conns
    ensures LivesFrom(states, TWICE_OPS, 0, 3, 1)
  {}

  lemma TwiceRoots(a: Reg, b: Reg, c: Reg)
    requires a == Register(EMPTY, 1, {1}, 0, 0) && Covered(a) && Covered(b)
    requires b == SignalReroute(a, 2, {1}, 1) && c == SignalReroute(b, 3, {1}, 2)
    ensures 1 in a.conns && 1 in b.conns && 1 in c.conns
    ensures b.conns[1].root == 2 && c.conns[1].root == 3 && c.conns[1].aliases == {1}
  {
    hide *;
    FirstRegistered(a);
    FirstMoved(a, 2, 1);
    FirstMoved(b, 3, 2);
  }

  lemma TwiceMoved(states: seq<Reg>)
    requires IsRun(states, TWICE_OPS)
    ensures |states| == 5 && LivesFrom(states, TWICE_OPS, 0, 3, 1)
    ensures states[2].conns[1].root == 2 && states[3].conns[1].root == 3 && states[3].conns[1].aliases == {1}
  {
    hide *;
    TwiceStates(states);
    RunCovers(states, TWICE_OPS, 1);
    RunCovers(states, TWICE_OPS, 2);
    TwiceRoots(states[1], states[2], states[3]);
    TwiceLives(states);
  }

  /** A connection moved twice is not forgotten: it still matches a signal for the root in between. */
  lemma MovedTwiceIsRemembered(states: seq<Reg>)
    requires IsRun(states, TWICE_OPS)
    ensures 1 !in states[4].conns && 1 in Matching(states[4], 2, {})
  {
    TwiceMoved(states);
    IndexedExactly(states, TWICE_OPS, 0, 3, 1, 2);
    assert StepAt(states, TWICE_OPS, 3);
    UnregisterLeaves(states[3], 1);
    MatchedExactly(states[4], 2, {}, 1);
    assert Covers(states[4], 2, {}, 2) by { assert 2 in {} + {2}; }
    assert OnceUnder(states, 0, 3, 1, 2);
    hide Matching, Covers, Indexed;
  }
}
