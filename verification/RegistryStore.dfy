/** The registry as the server updates it in place, one map entry at a time. */
module RegistryStore {
  import opened Base
  import opened Registry

  datatype SignalResult = SignalResult(matching: nat, signaled: nat, accounts: set<Account>)

  function AccountsOf(conns: map<Token, Conn>, tokens: set<Token>): set<Account> {
    set t | t in tokens && t in conns :: conns[t].account
  }

  lemma IndexAt(byKey: map<Key, set<Token>>, keys: set<Key>, token: Token, k: Key, x: Key)
    requires x in Index(byKey, keys + {k}, token)
    ensures var before := Index(byKey, keys, token);
            x in before[k := TokensAt(before, k) + {token}]
            && Index(byKey, keys + {k}, token)[x] == before[k := TokensAt(before, k) + {token}][x]
  {
  }

  lemma IndexNothing(byKey: map<Key, set<Token>>, token: Token)
    ensures Index(byKey, {}, token) == byKey
  {
    forall x | x in byKey ensures Index(byKey, {}, token)[x] == byKey[x] {
    }
  }

  lemma IndexStep(byKey: map<Key, set<Token>>, keys: set<Key>, token: Token, k: Key)
    ensures Index(byKey, keys + {k}, token)
            == Index(byKey, keys, token)[k := TokensAt(Index(byKey, keys, token), k) + {token}]
  {
    assert Index(byKey, keys + {k}, token).Keys == Index(byKey, keys, token).Keys + {k};
    hide Index;
    forall x | x in Index(byKey, keys + {k}, token)
      ensures Index(byKey, keys + {k}, token)[x]
              == Index(byKey, keys, token)[k := TokensAt(Index(byKey, keys, token), k) + {token}][x]
    {
      IndexAt(byKey, keys, token, k, x);
    }
  }

  lemma DefaultStep(rootOf: map<Key, Key>, keys: set<Key>, root: Key, k: Key)
    ensures var before := DefaultRoots(rootOf, keys, root);
            DefaultRoots(rootOf, keys + {k}, root) == if k in before then before else before[k := root]
    ensures DefaultRoots(rootOf, {}, root) == rootOf
  {
  }

  class ConnectionRegistry {
    var nextToken: Token
    var connections: map<Token, Conn>
    var connectionsByKey: map<Key, set<Token>>
    var rootByKey: map<Key, Key>
    var generationByRoot: map<Key, int>

    ghost function State(): Reg
      reads this
    {
      Reg(nextToken, connections, connectionsByKey, rootByKey, generationByRoot)
    }

    constructor ()
      ensures State() == EMPTY
    {
      nextToken, connections, connectionsByKey := 0, map[], map[];
      rootByKey, generationByRoot := map[], map[];
    }

    method AddConnection(root: Key, aliases: set<Key>, account: Account, generation: int)
      returns (token: Token, signal: Option<int>)
      modifies this
      ensures State() == Register(old(State()), root, aliases, account, generation)
      ensures token == nextToken && token in connections && signal == connections[token].signal
    {
      hide Index, DefaultRoots, CanonicalRoot, TokensAt, TokenAfter;
      var canonical := CanonicalRoot(rootByKey, root, aliases);
      var keys := aliases + {canonical};
      signal := InitialSignal(generationByRoot, canonical, generation);
      nextToken := TokenAfter(nextToken);
      token := nextToken;
      var todo := keys;
      assert keys - todo == {};
      IndexNothing(connectionsByKey, token);
      DefaultStep(rootByKey, {}, canonical, canonical);
      while todo != {}
        invariant todo <= keys && nextToken == token
        invariant connections == old(connections) && generationByRoot == old(generationByRoot)
        invariant connectionsByKey == Index(old(connectionsByKey), keys - todo, token)
        invariant rootByKey == DefaultRoots(old(rootByKey), keys - todo, canonical)
        decreases todo
      {
        var k :| k in todo;
        assert keys - (todo - {k}) == keys - todo + {k};
        IndexStep(old(connectionsByKey), keys - todo, token, k);
        DefaultStep(old(rootByKey), keys - todo, canonical, k);
        connectionsByKey := connectionsByKey[k := TokensAt(connectionsByKey, k) + {token}];
        if k !in rootByKey {
          rootByKey := rootByKey[k := canonical];
        }
        todo := todo - {k};
      }
      assert keys - todo == keys;
      connections := connections[token := Conn(canonical, keys, account, generation, signal)];
    }

    method Snapshot(root: Key, aliases: set<Key>) returns (count: nat, accounts: set<Account>)
      ensures count == |Matching(State(), root, aliases)|
      ensures accounts == AccountsOf(connections, Matching(State(), root, aliases))
    {
      var tokens := Matching(Reg(nextToken, connections, connectionsByKey, rootByKey, generationByRoot), root, aliases);
      count, accounts := |tokens|, AccountsOf(connections, tokens);
    }

    /** Points every matched live connection at the root and signals the ones it outdates. */
    method NotifyAll(tokens: set<Token>, root: Key, generation: int) returns (signaled: nat)
      modifies this`connections
      ensures connections == map t | t in old(connections) ::
                if t in tokens then Notify(old(connections)[t], root, generation) else old(connections)[t]
      ensures signaled == |set t | t in tokens && t in old(connections) && old(connections)[t].generation < generation|
    {
      signaled := 0;
      var todo := tokens;
      ghost var outdated: set<Token> := {};
      while todo != {}
        invariant todo <= tokens
        invariant connections.Keys == old(connections).Keys
        invariant forall t | t in connections :: connections[t] ==
                    if t in tokens - todo then Notify(old(connections)[t], root, generation) else old(connections)[t]
        invariant outdated == set t | t in tokens - todo && t in old(connections)
            && old(connections)[t].generation < generation
        invariant signaled == |outdated|
        decreases todo
      {
        var t :| t in todo;
        if t in connections {
          var entry := connections[t];
          connections := connections[t := Notify(entry, root, generation)];
          if entry.generation < generation {
            signaled := signaled + 1;
            outdated := outdated + {t};
          }
        }
        todo := todo - {t};
      }
      assert outdated == set t | t in tokens && t in old(connections) && old(connections)[t].generation < generation;
    }

    method Signal(root: Key, aliases: set<Key>, generation: int) returns (result: SignalResult)
      modifies this
      ensures State() == SignalReroute(old(State()), root, aliases, generation)
      ensures var tokens := Matching(old(State()), root, aliases);
              result == SignalResult(|tokens|,
                |set t | t in tokens && t in old(connections) && old(connections)[t].generation < generation|,
                AccountsOf(old(connections), tokens))
    {
      hide Matching, AssignRoots, Record, AccountsOf, Notify;
      var tokens := Matching(Reg(nextToken, connections, connectionsByKey, rootByKey, generationByRoot), root, aliases);
      var accounts := AccountsOf(connections, tokens);
      generationByRoot := Record(generationByRoot, root, generation);
      rootByKey := AssignRoots(rootByKey, aliases + {root}, root);
      var signaled := NotifyAll(tokens, root, generation);
      if tokens != {} {
        connectionsByKey := connectionsByKey[root := TokensAt(connectionsByKey, root) + tokens];
      }
      result := SignalResult(|tokens|, signaled, accounts);
    }

    method Remove(token: Token)
      modifies this
      ensures State() == Unregister(old(State()), token)
    {
      if token !in connections {
        return;
      }
      var entry := connections[token];
      connections := connections - {token};
      var keys := entry.aliases + {entry.root};
      var todo := keys;
      while todo != {}
        invariant todo <= keys && nextToken == old(nextToken) && connections == old(connections) - {token}
        invariant rootByKey == old(rootByKey) && generationByRoot == old(generationByRoot)
        invariant connectionsByKey == Unindex(old(connectionsByKey), keys - todo, token)
        decreases todo
      {
        var k :| k in todo;
        assert keys - (todo - {k}) == keys - todo + {k};
        if k in connectionsByKey {
          var left := connectionsByKey[k] - {token};
          connectionsByKey := if left == {} then connectionsByKey - {k} else connectionsByKey[k := left];
        }
        todo := todo - {k};
      }
      assert keys - todo == keys;
    }
  }

  /** When a waiting connection gives up: as soon as it holds a signal newer than itself. */
  predicate MustReconnect(signal: Option<int>, generation: int) {
    signal.Some? && generation < signal.value
  }

  /**
    With each root's signals in order, a live connection reconnects exactly when it carries a signal,
    and always when obsolete.
   */
  lemma ObsoleteMustReconnect(states: seq<Reg>, ops: seq<Op>, n: nat, t: Token)
    requires IsRun(states, ops) && RootsInOrder(ops) && n < |states| && t in states[n].conns
    ensures MustReconnect(states[n].conns[t].signal, states[n].conns[t].generation) <==> states[n].conns[t].signal.Some?
    ensures Obsolete(states[n], t) ==> MustReconnect(states[n].conns[t].signal, states[n].conns[t].generation)
  {
    hide Next;
    RunCovers(states, ops, n);
    NoRerouteLost(states, ops, n);
  }
}
