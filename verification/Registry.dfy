/**
  The in-memory registry of live WebSocket connections, and the reroute signals it delivers.

  Fingerprints are modelled as numbers: equal-length lower-case hexadecimal strings sort in
  numeric order, which is all that `register` uses when it picks the least candidate root.
 */
module Registry {
  import opened Base

  type Key = nat
  type Account = nat
  type Token = nat

  const TOKEN_LIMIT: nat := 0x1_0000_0000_0000_0000

  datatype Conn = Conn(root: Key, aliases: set<Key>, account: Account, generation: int, signal: Option<int>)

  datatype Reg = Reg(
    nextToken: Token,
    conns: map<Token, Conn>,
    byKey: map<Key, set<Token>>,
    rootOf: map<Key, Key>,
    recorded: map<Key, int>)

  const EMPTY: Reg := Reg(0, map[], map[], map[], map[])

  // ---------------------------------------------------------------- steps

  /** `wrapping_add(1).max(1)` on a 64-bit counter. */
  function TokenAfter(token: Token): Token {
    var next := (token + 1) % TOKEN_LIMIT;
    if next == 0 then 1 else next
  }

  function TokensAt(byKey: map<Key, set<Token>>, k: Key): set<Token> {
    if k in byKey then byKey[k] else {}
  }

  function Index(byKey: map<Key, set<Token>>, keys: set<Key>, token: Token): map<Key, set<Token>> {
    map k | k in byKey.Keys + keys :: TokensAt(byKey, k) + if k in keys then {token} else {}
  }

  function Unindex(byKey: map<Key, set<Token>>, keys: set<Key>, token: Token): map<Key, set<Token>> {
    map k | k in byKey && (k in keys ==> byKey[k] - {token} != {}) :: if k in keys then byKey[k] - {token} else byKey[k]
  }

  function DefaultRoots(rootOf: map<Key, Key>, keys: set<Key>, root: Key): map<Key, Key> {
    map k | k in rootOf.Keys + keys :: if k in rootOf then rootOf[k] else root
  }

  function AssignRoots(rootOf: map<Key, Key>, keys: set<Key>, root: Key): map<Key, Key> {
    map k | k in rootOf.Keys + keys :: if k in keys then root else rootOf[k]
  }

  function MappedRoots(rootOf: map<Key, Key>, keys: set<Key>): set<Key> {
    set k | k in keys && k in rootOf :: rootOf[k]
  }

  function Least(s: set<Key>): Key
    requires s != {}
  {
    ghost var x :| x in s;
    LeastBelow(s, x);
    var m :| m in s && forall x | x in s :: m <= x;
    m
  }

  lemma {:induction false} LeastBelow(s: set<Key>, x: Key)
    requires x in s
    ensures exists m :: m in s && forall y | y in s :: m <= y
    decreases x
  {
    if y :| y in s && y < x {
      LeastBelow(s, y);
    } else {
      assert x in s && forall y | y in s :: x <= y;
    }
  }

  /** The root a new connection is filed under: that of its own root hash, else of its aliases. */
  function CanonicalRoot(rootOf: map<Key, Key>, root: Key, aliases: set<Key>): Key {
    if root in rootOf then rootOf[root]
    else if MappedRoots(rootOf, aliases) != {} then Least(MappedRoots(rootOf, aliases))
    else root
  }

  function InitialSignal(recorded: map<Key, int>, root: Key, generation: int): Option<int> {
    if root in recorded && generation < recorded[root] then Some(recorded[root]) else None
  }

  function Register(r: Reg, root: Key, aliases: set<Key>, account: Account, generation: int): Reg {
    var canonical := CanonicalRoot(r.rootOf, root, aliases);
    var keys := aliases + {canonical};
    var token := TokenAfter(r.nextToken);
    Reg(token,
        r.conns[token := Conn(canonical, keys, account, generation, InitialSignal(r.recorded, canonical, generation))],
        Index(r.byKey, keys, token),
        DefaultRoots(r.rootOf, keys, canonical),
        r.recorded)
  }

  function MatchKeys(rootOf: map<Key, Key>, root: Key, aliases: set<Key>): set<Key> {
    aliases + {root} + MappedRoots(rootOf, aliases + {root})
  }

  function Matching(r: Reg, root: Key, aliases: set<Key>): set<Token> {
    set k, t | k in MatchKeys(r.rootOf, root, aliases) && k in r.byKey && t in r.byKey[k] :: t
  }

  function Notify(conn: Conn, root: Key, generation: int): Conn {
    conn.(root := root, signal := if conn.generation < generation then Some(generation) else conn.signal)
  }

  function Record(recorded: map<Key, int>, root: Key, generation: int): map<Key, int> {
    recorded[root := if root in recorded && recorded[root] > generation then recorded[root] else generation]
  }

  function SignalReroute(r: Reg, root: Key, aliases: set<Key>, generation: int): Reg {
    var tokens := Matching(r, root, aliases);
    Reg(r.nextToken,
        map t | t in r.conns :: if t in tokens then Notify(r.conns[t], root, generation) else r.conns[t],
        if tokens == {} then r.byKey else r.byKey[root := TokensAt(r.byKey, root) + tokens],
        AssignRoots(r.rootOf, aliases + {root}, root),
        Record(r.recorded, root, generation))
  }

  function Unregister(r: Reg, token: Token): Reg {
    if token !in r.conns then r
    else r.(conns := r.conns - {token},
            byKey := Unindex(r.byKey, r.conns[token].aliases + {r.conns[token].root}, token))
  }

  // ---------------------------------------------------------------- invariants

  /** Every live connection can be found under each of its keys and under its root. */
  ghost predicate Covered(r: Reg) {
    forall t, k | t in r.conns && k in r.conns[t].aliases + {r.conns[t].root} :: k in r.byKey && t in r.byKey[k]
  }

  /** A connection is signalled only about generations newer than its own. */
  ghost predicate Genuine(r: Reg) {
    forall t | t in r.conns && r.conns[t].signal.Some? :: r.conns[t].generation < r.conns[t].signal.value
  }

  /** A connection older than the generation recorded for its root. */
  ghost predicate Obsolete(r: Reg, t: Token)
    requires t in r.conns
  {
    var conn := r.conns[t];
    conn.root in r.recorded && conn.generation < r.recorded[conn.root]
  }

  /** Every obsolete live connection carries a signal. */
  ghost predicate NoneLost(r: Reg) {
    forall t | t in r.conns && Obsolete(r, t) :: r.conns[t].signal.Some?
  }

  /** Recorded roots map, possibly through a later merge, to a root with no older a record. */
  ghost predicate Ordered(r: Reg) {
    forall x | x in r.recorded ::
      x in r.rootOf && r.rootOf[x] in r.recorded && r.recorded[x] <= r.recorded[r.rootOf[x]]
  }

  /** A live connection that shares any key with the signal is matched by it. */
  lemma SharedKeyMatches(r: Reg, root: Key, aliases: set<Key>, t: Token, k: Key)
    requires Covered(r) && t in r.conns && k in r.conns[t].aliases + {r.conns[t].root} && k in aliases + {root}
    ensures t in Matching(r, root, aliases)
  {
    assert k in MatchKeys(r.rootOf, root, aliases) && k in r.byKey && t in r.byKey[k];
  }

  lemma RegisterKeeps(r: Reg, root: Key, aliases: set<Key>, account: Account, generation: int)
    requires Covered(r) && Genuine(r)
    ensures var after := Register(r, root, aliases, account, generation);
            Covered(after) && Genuine(after) && (NoneLost(r) ==> NoneLost(after)) && (Ordered(r) ==> Ordered(after))
  {
  }

  lemma UnregisterKeeps(r: Reg, token: Token)
    requires Covered(r) && Genuine(r)
    ensures var after := Unregister(r, token);
            Covered(after) && Genuine(after) && (NoneLost(r) ==> NoneLost(after)) && (Ordered(r) ==> Ordered(after))
  {
  }

  lemma SignalCovers(r: Reg, root: Key, aliases: set<Key>, generation: int)
    requires Covered(r) && Genuine(r)
    ensures var after := SignalReroute(r, root, aliases, generation); Covered(after) && Genuine(after)
  {
    hide Matching;
    var tokens := Matching(r, root, aliases);
    var after := SignalReroute(r, root, aliases, generation);
    forall t, k | t in after.conns && k in after.conns[t].aliases + {after.conns[t].root}
      ensures k in after.byKey && t in after.byKey[k]
    {
      if t in tokens && k == root {
        assert tokens != {};
      }
    }
  }

  /** A matched connection that the signal itself would leave obsolete and silent. */
  ghost predicate Overlooked(r: Reg, root: Key, aliases: set<Key>, generation: int, t: Token) {
    && t in r.conns && t in Matching(r, root, aliases)
    && root in r.recorded && generation <= r.conns[t].generation < r.recorded[root]
    && r.conns[t].signal.None?
  }

  /**
    After a signal no obsolete connection is silent, if and only if the signal does not arrive
    late for a connection it pulls under a root with a newer record.
   */
  lemma SignalExact(r: Reg, root: Key, aliases: set<Key>, generation: int)
    requires Covered(r) && Genuine(r) && NoneLost(r)
    ensures NoneLost(SignalReroute(r, root, aliases, generation))
            <==> !exists t :: Overlooked(r, root, aliases, generation, t)
  {
    var after := SignalReroute(r, root, aliases, generation);
    if t :| Overlooked(r, root, aliases, generation, t) {
      assert t in after.conns && Obsolete(after, t) && after.conns[t].signal.None?;
    } else {
      forall t | t in after.conns && Obsolete(after, t) ensures after.conns[t].signal.Some? {
        if t in Matching(r, root, aliases) {
          assert !Overlooked(r, root, aliases, generation, t);
        } else {
          if r.conns[t].root == root {
            SharedKeyMatches(r, root, aliases, t, root);
          }
          assert Obsolete(r, t);
        }
      }
    }
  }

  // ---------------------------------------------------------------- runs

  datatype Op =
    | RegisterOp(root: Key, aliases: set<Key>, account: Account, generation: int)
    | SignalOp(root: Key, aliases: set<Key>, generation: int)
    | UnregisterOp(token: Token)

  function Next(r: Reg, op: Op): Reg {
    match op
    case RegisterOp(root, aliases, account, generation) => Register(r, root, aliases, account, generation)
    case SignalOp(root, aliases, generation) => SignalReroute(r, root, aliases, generation)
    case UnregisterOp(token) => Unregister(r, token)
  }

  ghost predicate StepAt(states: seq<Reg>, ops: seq<Op>, i: nat)
    requires i < |ops| < |states|
  {
    states[i + 1] == Next(states[i], ops[i])
  }

  ghost predicate IsRun(states: seq<Reg>, ops: seq<Op>) {
    && |states| == |ops| + 1 && states[0] == EMPTY
    && (forall i | 0 <= i < |ops| :: StepAt(states, ops, i))
  }

  /** The keys a signal names. */
  function Named(op: Op): set<Key>
    requires op.SignalOp?
  { op.aliases + {op.root} }

  /** Signals with a key in common arrive in generation order. */
  ghost predicate OverlapsInOrder(ops: seq<Op>) {
    forall i, j | 0 <= i < j < |ops| && ops[i].SignalOp? && ops[j].SignalOp? && !(Named(ops[i]) !! Named(ops[j])) ::
      ops[i].generation <= ops[j].generation
  }

  /** Signals for one root arrive in generation order, whatever other keys they share. */
  ghost predicate RootsInOrder(ops: seq<Op>) {
    forall i, j | 0 <= i < j < |ops| && ops[i].SignalOp? && ops[j].SignalOp? && ops[i].root == ops[j].root ::
      ops[i].generation <= ops[j].generation
  }

  lemma OverlapsOrderRoots(ops: seq<Op>)
    requires OverlapsInOrder(ops)
    ensures RootsInOrder(ops)
  {
    forall i, j | 0 <= i < j < |ops| && ops[i].SignalOp? && ops[j].SignalOp? && ops[i].root == ops[j].root
      ensures ops[i].generation <= ops[j].generation
    {
      assert ops[i].root in Named(ops[i]) && ops[i].root in Named(ops[j]);
    }
  }

  lemma {:induction false} RunCovers(states: seq<Reg>, ops: seq<Op>, n: nat)
    requires IsRun(states, ops) && n < |states|
    ensures Covered(states[n]) && Genuine(states[n])
  {
    if n > 0 {
      RunCovers(states, ops, n - 1);
      assert StepAt(states, ops, n - 1);
      match ops[n - 1]
      case RegisterOp(root, aliases, account, generation) => RegisterKeeps(states[n - 1], root, aliases, account,
          generation);
      case SignalOp(root, aliases, generation) => SignalCovers(states[n - 1], root, aliases, generation);
      case UnregisterOp(token) => UnregisterKeeps(states[n - 1], token);
    }
  }

  /** Every record was made by a signal for its own root. */
  lemma {:induction false} RecordedFrom(states: seq<Reg>, ops: seq<Op>, n: nat, x: Key) returns (i: nat)
    requires IsRun(states, ops) && n < |states| && x in states[n].recorded
    ensures i < n && ops[i].SignalOp? && ops[i].root == x && ops[i].generation == states[n].recorded[x]
  {
    assert StepAt(states, ops, n - 1);
    var before, op := states[n - 1].recorded, ops[n - 1];
    if x in before && states[n].recorded[x] == before[x] {
      i := RecordedFrom(states, ops, n - 1, x);
    } else {
      i := n - 1;
    }
  }

  /** Whether the signal at `i` leaves some connection it re-roots obsolete and silent. */
  ghost predicate LosesOne(states: seq<Reg>, ops: seq<Op>, i: nat)
    requires i < |ops| < |states|
  {
    ops[i].SignalOp? && exists t :: Overlooked(states[i], ops[i].root, ops[i].aliases, ops[i].generation, t)
  }

  lemma StepLosesNoneExactly(states: seq<Reg>, ops: seq<Op>, i: nat)
    requires IsRun(states, ops) && i < |ops| && NoneLost(states[i])
    ensures NoneLost(states[i + 1]) <==> !LosesOne(states, ops, i)
  {
    RunCovers(states, ops, i);
    assert StepAt(states, ops, i);
    match ops[i]
    case RegisterOp(root, aliases, account, generation) => RegisterKeeps(states[i], root, aliases, account, generation);
    case SignalOp(root, aliases, generation) => SignalExact(states[i], root, aliases, generation);
    case UnregisterOp(token) => UnregisterKeeps(states[i], token);
  }

  /** A run loses no signal up to state `n` if and only if none of its signals overlooks a connection. */
  lemma {:induction false} RunLosesNoneExactly(states: seq<Reg>, ops: seq<Op>, n: nat)
    requires IsRun(states, ops) && n < |states|
    ensures (forall m | 0 <= m <= n :: NoneLost(states[m])) <==> (forall i | 0 <= i < n :: !LosesOne(states, ops, i))
  {
    hide NoneLost, LosesOne;
    if n == 0 {
      assert NoneLost(EMPTY) by { EmptyLosesNone(); }
    } else {
      RunLosesNoneExactly(states, ops, n - 1);
      if NoneLost(states[n - 1]) {
        StepLosesNoneExactly(states, ops, n - 1);
      }
    }
  }

  lemma EmptyLosesNone()
    ensures NoneLost(EMPTY)
  {}

  /**
    No reroute is lost: while signals for one root arrive in generation order, every obsolete
    live connection is signalled in every state.
   */
  lemma NoRerouteLost(states: seq<Reg>, ops: seq<Op>, n: nat)
    requires IsRun(states, ops) && RootsInOrder(ops) && n < |states|
    ensures NoneLost(states[n])
  {
    forall i | 0 <= i < n ensures !LosesOne(states, ops, i) {
      if ops[i].SignalOp? && ops[i].root in states[i].recorded {
        var first := RecordedFrom(states, ops, i, ops[i].root);
        assert ops[first].generation <= ops[i].generation;
      }
    }
    RunLosesNoneExactly(states, ops, n);
  }

  const LATE_OPS: seq<Op> := [SignalOp(1, {}, 5), RegisterOp(2, {2}, 0, 4), SignalOp(1, {2}, 3)]

  lemma LateSignalSetting(r: Reg)
    requires r == SignalReroute(EMPTY, 1, {}, 5)
    ensures r.conns == map[] && r.nextToken == 0 && r.recorded == map[1 := 5] && r.rootOf == map[1 := 1]
  {
    assert {} + {1} == {1};
  }

  lemma LateSignalOverlooks(before: Reg, r: Reg)
    requires before.conns == map[] && before.nextToken == 0 && before.recorded == map[1 := 5]
        && before.rootOf == map[1 := 1]
    requires r == Register(before, 2, {2}, 0, 4) && Covered(r)
    ensures NoneLost(r) && Overlooked(r, 1, {2}, 3, 1)
  {
    assert MappedRoots(before.rootOf, {2}) == {};
    assert {2} + {2} == {2};
    assert r.conns == map[1 := Conn(2, {2}, 0, 4, None)];
    SharedKeyMatches(r, 1, {2}, 1, 2);
    hide Matching;
  }

  /** Out of order a signal is lost: the connection ends up under a newer root without any signal. */
  lemma LateSignalIsLost(states: seq<Reg>)
    requires IsRun(states, LATE_OPS)
    ensures NoneLost(states[2]) && !NoneLost(states[3])
  {
    hide SignalReroute, Register, NoneLost, Overlooked;
    assert StepAt(states, LATE_OPS, 0) && StepAt(states, LATE_OPS, 1) && StepAt(states, LATE_OPS, 2);
    RunCovers(states, LATE_OPS, 2);
    LateSignalSetting(states[1]);
    LateSignalOverlooks(states[1], states[2]);
    SignalExact(states[2], 1, {2}, 3);
  }

  /** A delivered signal is never taken back, only replaced by another newer than the connection. */
  lemma SignalPersists(r: Reg, op: Op, t: Token)
    requires t in r.conns && t in Next(r, op).conns && r.conns[t].signal.Some?
    requires op.RegisterOp? ==> TokenAfter(r.nextToken) != t
    ensures Next(r, op).conns[t].signal.Some? && Next(r, op).conns[t].generation == r.conns[t].generation
  {
  }

  /** `t` is the same connection throughout states `from..to`. */
  ghost predicate LiveThroughout(states: seq<Reg>, ops: seq<Op>, from: nat, to: nat, t: Token)
    requires from <= to < |states| == |ops| + 1
  {
    && (forall m | from <= m <= to :: t in states[m].conns)
    && (forall m | from <= m < to && ops[m].RegisterOp? :: TokenAfter(states[m].nextToken) != t)
  }

  /**
    A signal reaches every live connection that shares a key with it, in whatever order signals
    arrive: from then on that connection carries a signal newer than itself until it goes away.
   */
  lemma {:induction false} SignalReachesSharedKeys(states: seq<Reg>, ops: seq<Op>, i: nat, n: nat, t: Token, k: Key)
    requires IsRun(states, ops) && i < n < |states| && ops[i].SignalOp?
    requires LiveThroughout(states, ops, i, n, t)
    requires k in states[i].conns[t].aliases + {states[i].conns[t].root} && k in ops[i].aliases + {ops[i].root}
    requires states[i].conns[t].generation < ops[i].generation
    ensures states[n].conns[t].generation == states[i].conns[t].generation
    ensures states[n].conns[t].signal.Some? && states[n].conns[t].generation < states[n].conns[t].signal.value
    decreases n
  {
    RunCovers(states, ops, n);
    assert StepAt(states, ops, n - 1);
    if n == i + 1 {
      RunCovers(states, ops, i);
      SharedKeyMatches(states[i], ops[i].root, ops[i].aliases, t, k);
    } else {
      SignalReachesSharedKeys(states, ops, i, n - 1, t, k);
      SignalPersists(states[n - 1], ops[n - 1], t);
    }
  }

  // ---------------------------------------------------------------- late registrations

  /** The generation recorded for the root a key is filed under is at least `generation`. */
  ghost predicate KnownAt(r: Reg, k: Key, generation: int) {
    k in r.rootOf && r.rootOf[k] in r.recorded && generation <= r.recorded[r.rootOf[k]]
  }

  lemma KnownPersists(r: Reg, op: Op, k: Key, generation: int)
    requires KnownAt(r, k, generation)
    requires op.SignalOp? && k in Named(op) ==> generation <= op.generation
    ensures KnownAt(Next(r, op), k, generation)
  {
  }

  lemma {:induction false} KnownForEver(states: seq<Reg>, ops: seq<Op>, i: nat, n: nat, k: Key)
    requires IsRun(states, ops) && OverlapsInOrder(ops) && i < n < |states| && ops[i].SignalOp?
    requires k in Named(ops[i])
    ensures KnownAt(states[n], k, ops[i].generation)
    decreases n
  {
    assert StepAt(states, ops, n - 1);
    if n > i + 1 {
      KnownForEver(states, ops, i, n - 1, k);
      if ops[n - 1].SignalOp? && k in Named(ops[n - 1]) {
        assert ops[i].generation <= ops[n - 1].generation;
      }
      KnownPersists(states[n - 1], ops[n - 1], k, ops[i].generation);
    }
  }

  /**
    With overlapping signals in order no reroute is lost either, and recorded roots only ever
    merge into roots with no older a record.
   */
  lemma RecordsFollowMerges(states: seq<Reg>, ops: seq<Op>, n: nat)
    requires IsRun(states, ops) && OverlapsInOrder(ops) && n < |states|
    ensures NoneLost(states[n]) && Ordered(states[n])
  {
    OverlapsOrderRoots(ops);
    NoRerouteLost(states, ops, n);
    hide NoneLost, RootsInOrder;
    forall x | x in states[n].recorded ensures KnownAt(states[n], x, states[n].recorded[x]) {
      var i := RecordedFrom(states, ops, n, x);
      KnownForEver(states, ops, i, n, x);
    }
  }

  /** A new connection starts out signalled exactly when the root it is filed under has a newer record. */
  lemma RegistrationSignalExactly(r: Reg, root: Key, aliases: set<Key>, account: Account, generation: int)
    ensures var after := Register(r, root, aliases, account, generation);
            var filed := CanonicalRoot(r.rootOf, root, aliases);
            var conn := after.conns[TokenAfter(r.nextToken)];
            && conn.root == filed
            && (conn.signal.Some? <==> filed in r.recorded && generation < r.recorded[filed])
            && (conn.signal.Some? ==> conn.signal.value == r.recorded[filed])
  {
    hide CanonicalRoot, Index, DefaultRoots;
  }

  /** A connection that registers late under a root hash already signalled starts out signalled. */
  lemma LateRegistrationSignalled(states: seq<Reg>, ops: seq<Op>, i: nat, n: nat)
    requires IsRun(states, ops) && OverlapsInOrder(ops) && i < n < |ops|
    requires ops[i].SignalOp? && ops[n].RegisterOp?
    requires ops[n].root in Named(ops[i]) && ops[n].generation < ops[i].generation
    ensures var t := TokenAfter(states[n].nextToken);
            && t in states[n + 1].conns
            && states[n + 1].conns[t].signal.Some?
            && ops[i].generation <= states[n + 1].conns[t].signal.value
  {
    KnownForEver(states, ops, i, n, ops[n].root);
    assert StepAt(states, ops, n);
  }

  /**
    The same for a connection whose own root hash is unknown but that shares an alias with the
    signal, when all its known aliases are filed under one root.
   */
  lemma LateAliasSignalled(states: seq<Reg>, ops: seq<Op>, i: nat, n: nat, k: Key)
    requires IsRun(states, ops) && OverlapsInOrder(ops) && i < n < |ops|
    requires ops[i].SignalOp? && ops[n].RegisterOp? && ops[n].generation < ops[i].generation
    requires k in Named(ops[i]) && k in ops[n].aliases && ops[n].root !in states[n].rootOf
    requires forall x, y | x in MappedRoots(states[n].rootOf, ops[n].aliases)
                           && y in MappedRoots(states[n].rootOf, ops[n].aliases) :: x == y
    ensures var t := TokenAfter(states[n].nextToken);
            && t in states[n + 1].conns
            && states[n + 1].conns[t].signal.Some?
            && ops[i].generation <= states[n + 1].conns[t].signal.value
  {
    KnownForEver(states, ops, i, n, k);
    assert StepAt(states, ops, n);
    assert states[n].rootOf[k] in MappedRoots(states[n].rootOf, ops[n].aliases);
    assert CanonicalRoot(states[n].rootOf, ops[n].root, ops[n].aliases) == states[n].rootOf[k];
  }

  const SPLIT_OPS: seq<Op> := [SignalOp(5, {6}, 9), SignalOp(1, {2}, 3), RegisterOp(7, {6, 2}, 0, 4)]

  lemma SplitSetting(first: Reg, second: Reg)
    requires first == SignalReroute(EMPTY, 5, {6}, 9) && second == SignalReroute(first, 1, {2}, 3)
    ensures second.rootOf == map[5 := 5, 6 := 5, 1 := 1, 2 := 1] && second.recorded == map[5 := 9, 1 := 3]
  {
    assert first.rootOf == map[5 := 5, 6 := 5] && first.recorded == map[5 := 9];
    hide Matching;
  }

  /**
    Otherwise it can start out silent, filed under the least of the roots: here an alias was signalled
    at 9, and 4 is older.
   */
  lemma LateAliasIsMissed(states: seq<Reg>)
    requires IsRun(states, SPLIT_OPS)
    ensures OverlapsInOrder(SPLIT_OPS) && TokenAfter(states[2].nextToken) in states[3].conns
    ensures states[3].conns[TokenAfter(states[2].nextToken)].signal.None?
  {
    assert StepAt(states, SPLIT_OPS, 0) && StepAt(states, SPLIT_OPS, 1) && StepAt(states, SPLIT_OPS, 2);
    SplitInOrder();
    hide SignalReroute, Register, TokenAfter, OverlapsInOrder;
    SplitSetting(states[1], states[2]);
    SplitRegistration(states[2]);
  }

  lemma SplitInOrder()
    ensures OverlapsInOrder(SPLIT_OPS)
  {
    assert Named(SPLIT_OPS[0]) !! Named(SPLIT_OPS[1]);
  }

  lemma SplitRegistration(r: Reg)
    requires r.rootOf == map[5 := 5, 6 := 5, 1 := 1, 2 := 1] && r.recorded == map[5 := 9, 1 := 3]
    ensures var after := Register(r, 7, {6, 2}, 0, 4);
            TokenAfter(r.nextToken) in after.conns && after.conns[TokenAfter(r.nextToken)].signal.None?
  {
    RegistrationSignalExactly(r, 7, {6, 2}, 0, 4);
    assert MappedRoots(r.rootOf, {6, 2}) == {5, 1};
    hide MappedRoots, Register;
    assert CanonicalRoot(r.rootOf, 7, {6, 2}) == 1;
    hide CanonicalRoot;
    assert TokenAfter(r.nextToken) in Register(r, 7, {6, 2}, 0, 4).conns by { Registered(r, 7, {6, 2}, 0, 4); }
  }

  lemma Registered(r: Reg, root: Key, aliases: set<Key>, account: Account, generation: int)
    ensures TokenAfter(r.nextToken) in Register(r, root, aliases, account, generation).conns
  {
    hide CanonicalRoot, Index, DefaultRoots;
  }
}
