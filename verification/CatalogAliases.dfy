/** The route keys sent for a session tree: one per member and alias kind, or none at all. */
module CatalogAliases {
  import opened Base
  import opened RouteKeys
  import opened Catalog
  import opened CatalogTrees

  const MAX_ACTION_KEYS: nat := 500
  const ALIAS_KINDS: seq<Kind> :=
    [SESSION_ID, Kind("thread_id"), Kind("conversation_id"), Kind("prompt_cache_key")]

  type Fingerprint = (Kind, Id) -> Hash

  /** The fingerprints of the given ids under every alias kind. */
  function FingerprintsOf(ids: set<Id>, hash: Fingerprint): set<Hash> {
    set id, k | id in ids && 0 <= k < |ALIAS_KINDS| :: hash(ALIAS_KINDS[k], id)
  }

  /** The alias kinds, by name. */
  lemma KindsNamed(kind: Kind)
    ensures kind in ALIAS_KINDS <==> kind.name in {"session_id", "thread_id", "conversation_id", "prompt_cache_key"}
  {
    assert ALIAS_KINDS[0].name == "session_id" && ALIAS_KINDS[1].name == "thread_id";
    assert ALIAS_KINDS[2].name == "conversation_id" && ALIAS_KINDS[3].name == "prompt_cache_key";
    forall k | k in ALIAS_KINDS ensures k == Kind(k.name) {}
  }

  /** The fingerprints of a set of ids are those of each of them under each kind. */
  lemma FingerprintsExactly(ids: set<Id>, hash: Fingerprint, h: Hash)
    ensures h in FingerprintsOf(ids, hash)
        <==> exists id, kind | id in ids && kind in ALIAS_KINDS :: h == hash(kind, id)
  {
    if id, kind :| id in ids && kind in ALIAS_KINDS && h == hash(kind, id) {
      var k :| 0 <= k < |ALIAS_KINDS| && ALIAS_KINDS[k] == kind;
      assert h == hash(ALIAS_KINDS[k], id);
    }
  }

  lemma {:induction false} SubsetSize(a: set<Hash>, b: set<Hash>)
    requires a <= b
    ensures |a| <= |b|
  {
    if a != {} {
      var x :| x in a;
      SubsetSize(a - {x}, b - {x});
    }
  }

  lemma {:induction false} DistinctSize(keys: seq<RouteKey>)
    requires Distinct(keys)
    ensures |HashesOf(keys)| == |keys|
  {
    if keys != [] {
      var n := |keys| - 1;
      DistinctSize(keys[..n]);
      SnocHashes(keys[..n], keys[n]);
      assert keys == keys[..n] + [keys[n]];
      forall k | k in keys[..n] ensures k.hash != keys[n].hash {
      }
    }
  }

  lemma SnocHashes(keys: seq<RouteKey>, key: RouteKey)
    ensures HashesOf(keys + [key]) == HashesOf(keys) + {key.hash}
  {
    forall h | h in HashesOf(keys) + {key.hash} ensures h in HashesOf(keys + [key]) {
      if h == key.hash {
        assert key in keys + [key];
      } else {
        var k :| k in keys && k.hash == h;
        assert k in keys + [key];
      }
    }
    forall h | h in HashesOf(keys + [key]) ensures h in HashesOf(keys) + {key.hash} {
      var k :| k in keys + [key] && k.hash == h;
    }
  }

  lemma SnocDistinct(keys: seq<RouteKey>, key: RouteKey)
    requires Distinct(keys) && key.hash !in HashesOf(keys)
    ensures Distinct(keys + [key])
  {
    forall i | 0 <= i < |keys| ensures keys[i].hash != key.hash {
      assert keys[i] in keys;
    }
  }

  lemma EmptyHashes()
    ensures HashesOf([]) == {}
  {
  }

  function FirstFingerprints(id: Id, k: nat, hash: Fingerprint): set<Hash>
    requires k <= |ALIAS_KINDS|
  {
    set j | 0 <= j < k :: hash(ALIAS_KINDS[j], id)
  }

  lemma NextFingerprint(id: Id, k: nat, hash: Fingerprint)
    requires k < |ALIAS_KINDS|
    ensures FirstFingerprints(id, k + 1, hash) == FirstFingerprints(id, k, hash) + {hash(ALIAS_KINDS[k], id)}
    ensures FirstFingerprints(id, 0, hash) == {}
    ensures hash(ALIAS_KINDS[k], id) in FingerprintsOf({id}, hash)
    ensures FirstFingerprints(id, k, hash) <= FingerprintsOf({id}, hash)
    ensures FirstFingerprints(id, |ALIAS_KINDS|, hash) == FingerprintsOf({id}, hash)
  {
  }

  /** Every key is the fingerprint of one of the ids, filed under the kind it was made with. */
  ghost predicate Typed(keys: seq<RouteKey>, ids: set<Id>, hash: Fingerprint) {
    forall key | key in keys :: key.kind in ALIAS_KINDS && exists id | id in ids :: key.hash == hash(key.kind, id)
  }

  /** Every one of the ids has a key for every kind. */
  ghost predicate Covering(keys: seq<RouteKey>, ids: set<Id>, hash: Fingerprint) {
    forall id, kind | id in ids && kind in ALIAS_KINDS :: exists key | key in keys :: key.hash == hash(kind, id)
  }

  lemma CoveringExactly(keys: seq<RouteKey>, ids: set<Id>, hash: Fingerprint)
    requires HashesOf(keys) == FingerprintsOf(ids, hash)
    ensures Covering(keys, ids, hash)
  {
    forall id, kind | id in ids && kind in ALIAS_KINDS ensures exists key | key in keys :: key.hash == hash(kind, id) {
      FingerprintsExactly(ids, hash, hash(kind, id));
      assert hash(kind, id) in HashesOf(keys);
    }
    hide FingerprintsOf;
  }

  lemma TypedSnoc(keys: seq<RouteKey>, ids: set<Id>, id: Id, k: nat, hash: Fingerprint)
    requires Typed(keys, ids, hash) && k < |ALIAS_KINDS| && id in ids
    ensures Typed(keys + [RouteKey(hash(ALIAS_KINDS[k], id), ALIAS_KINDS[k])], ids, hash)
  {}

  /** Adds the aliases of one member, skipping fingerprints already present. */
  method AddMember(before: seq<RouteKey>, id: Id, hash: Fingerprint, ghost ids: set<Id>)
    returns (result: Option<seq<RouteKey>>)
    requires Distinct(before) && |before| <= MAX_ACTION_KEYS && Typed(before, ids, hash) && id in ids
    ensures result.Some? ==> Typed(result.value, ids, hash)
    ensures result.Some? ==>
              && Distinct(result.value) && |result.value| <= MAX_ACTION_KEYS
              && before <= result.value
              && HashesOf(result.value) == HashesOf(before) + FingerprintsOf({id}, hash)
              && (before == [] ==> result.value != [] && result.value[0] == RouteKey(hash(SESSION_ID, id), SESSION_ID))
    ensures result.None? ==> |HashesOf(before) + FingerprintsOf({id}, hash)| > MAX_ACTION_KEYS
  {
    hide FirstFingerprints, FingerprintsOf, HashesOf, Typed;
    var aliases := before;
    NextFingerprint(id, 0, hash);
    EmptyHashes();
    for k := 0 to |ALIAS_KINDS|
      invariant Distinct(aliases) && |aliases| <= MAX_ACTION_KEYS && before <= aliases
      invariant HashesOf(aliases) == HashesOf(before) + FirstFingerprints(id, k, hash)
      invariant k == 0 ==> aliases == before
      invariant Typed(aliases, ids, hash)
      invariant before == [] && k > 0 ==> aliases != [] && aliases[0] == RouteKey(hash(SESSION_ID, id), SESSION_ID)
    {
      var key := RouteKey(hash(ALIAS_KINDS[k], id), ALIAS_KINDS[k]);
      NextFingerprint(id, k, hash);
      if key.hash !in HashesOf(aliases) {
        SnocHashes(aliases, key);
        if |aliases| == MAX_ACTION_KEYS {
          DistinctSize(aliases);
          SubsetSize(HashesOf(aliases) + {key.hash}, HashesOf(before) + FingerprintsOf({id}, hash));
          return None;
        }
        SnocDistinct(aliases, key);
        TypedSnoc(aliases, ids, id, k, hash);
        aliases := aliases + [key];
      }
    }
    result := Some(aliases);
  }

  lemma NoAliases(ids: set<Id>, hash: Fingerprint)
    ensures Distinct([]) && Typed([], ids, hash) && HashesOf([]) == {}
  {}

  lemma FingerprintsWithin(ids: set<Id>, more: set<Id>, hash: Fingerprint)
    requires ids <= more
    ensures FingerprintsOf(ids, hash) <= FingerprintsOf(more, hash)
  {}

  lemma FingerprintsMore(ids: set<Id>, id: Id, hash: Fingerprint)
    ensures FingerprintsOf(ids + {id}, hash) == FingerprintsOf(ids, hash) + FingerprintsOf({id}, hash)
  {}

  /**
    The aliases of a whole tree.  They are produced exactly when the tree needs at most 500
    fingerprints, and then every member is covered under every kind; a larger tree yields no
    list at all rather than part of one.
   */
  method SessionTreeAliases(tree: Tree, hash: Fingerprint) returns (result: Option<seq<RouteKey>>)
    ensures result.Some? <==> |FingerprintsOf(tree.members + {tree.root}, hash)| <= MAX_ACTION_KEYS
    ensures result.Some? ==>
              && Distinct(result.value)
              && HashesOf(result.value) == FingerprintsOf(tree.members + {tree.root}, hash)
              && Covering(result.value, tree.members + {tree.root}, hash)
              && Typed(result.value, tree.members + {tree.root}, hash)
              && result.value != []
              && result.value[0] == RouteKey(hash(SESSION_ID, tree.root), SESSION_ID)
  {
    hide Typed, HashesOf, FingerprintsOf, Distinct, Covering;
    ghost var all := FingerprintsOf(tree.members + {tree.root}, hash);
    NoAliases(tree.members + {tree.root}, hash);
    FingerprintsWithin({tree.root}, tree.members + {tree.root}, hash);
    var first := AddMember([], tree.root, hash, tree.members + {tree.root});
    if first.None? {
      SubsetSize(HashesOf([]) + FingerprintsOf({tree.root}, hash), all);
      return None;
    }
    var aliases := first.value;
    var todo := tree.members - {tree.root};
    assert tree.members + {tree.root} - todo == {tree.root};
    while todo != {}
      invariant todo <= tree.members - {tree.root}
      invariant Distinct(aliases) && |aliases| <= MAX_ACTION_KEYS && aliases != []
      invariant HashesOf(aliases) == FingerprintsOf(tree.members + {tree.root} - todo, hash)
      invariant aliases[0] == RouteKey(hash(SESSION_ID, tree.root), SESSION_ID)
      invariant Typed(aliases, tree.members + {tree.root}, hash)
      decreases todo
    {
      var id :| id in todo;
      ghost var done := tree.members + {tree.root} - todo;
      assert tree.members + {tree.root} - (todo - {id}) == done + {id};
      FingerprintsMore(done, id, hash);
      FingerprintsWithin(done + {id}, tree.members + {tree.root}, hash);
      var next := AddMember(aliases, id, hash, tree.members + {tree.root});
      if next.None? {
        SubsetSize(FingerprintsOf(done + {id}, hash), all);
        return None;
      }
      aliases := next.value;
      todo := todo - {id};
    }
    assert tree.members + {tree.root} - todo == tree.members + {tree.root};
    DistinctSize(aliases);
    CoveringExactly(aliases, tree.members + {tree.root}, hash);
    result := Some(aliases);
  }
}
