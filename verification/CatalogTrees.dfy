/**
  Session trees, connected components, and the guarantee that a route mutation never acts on
  part of a tree.
 */
module CatalogTrees {
  import opened Base
  import opened Catalog
  import opened CatalogGraph

  datatype Tree = Tree(root: Id, members: set<Id>, modified: nat)

  // ---------------------------------------------------------------- trees

  /** What one resolvable node contributes to its tree: itself and the links that share its root. */
  function Contribution(c: Cat, node: Node, root: Id): set<Id> {
    {node.id} + (set a | a in Related(node) && CanonicalRoot(c, a) == Ok(root))
  }

  /** The members contributed by the given nodes. */
  ghost function MembersFrom(c: Cat, ids: set<Id>, root: Id): set<Id>
    requires ids <= c.nodes.Keys
  {
    {root} + (set n, m | n in ids && CanonicalRoot(c, n) == Ok(root) && m in Contribution(c, c.nodes[n], root) :: m)
  }

  ghost predicate HasTree(c: Cat, ids: set<Id>, root: Id) {
    exists n | n in ids :: CanonicalRoot(c, n) == Ok(root)
  }

  /** `time` is the newest among the given nodes of the tree, or the epoch when there is none. */
  ghost predicate Newest(c: Cat, ids: set<Id>, root: Id, time: nat)
    requires ids <= c.nodes.Keys
  {
    && (forall n | n in ids && CanonicalRoot(c, n) == Ok(root) :: c.nodes[n].modified <= time)
    && (time == 0 || exists n | n in ids :: CanonicalRoot(c, n) == Ok(root) && c.nodes[n].modified == time)
  }

  /** Groups every resolvable node under its canonical root. */
  method SessionTrees(c: Cat) returns (trees: map<Id, Tree>)
    requires Flagged(c)
    ensures forall r: Id :: r in trees <==> HasTree(c, c.nodes.Keys, r)
    ensures forall r | r in trees :: trees[r].root == r && trees[r].members == MembersFrom(c, c.nodes.Keys, r)
    ensures forall r | r in trees :: Newest(c, c.nodes.Keys, r, trees[r].modified)
  {
    hide MembersFrom, HasTree, CanonicalRoot, Contribution, Newest;
    trees := map[];
    var todo := c.nodes.Keys;
    NoTrees(c);
    while todo != {}
      invariant todo <= c.nodes.Keys
      invariant forall r: Id :: r in trees <==> HasTree(c, c.nodes.Keys - todo, r)
      invariant forall r | r in trees ::
                  trees[r].root == r && trees[r].members == MembersFrom(c, c.nodes.Keys - todo, r)
      invariant forall r | r in trees :: Newest(c, c.nodes.Keys - todo, r, trees[r].modified)
      decreases todo
    {
      var n :| n in todo;
      var node := c.nodes[n];
      var resolved := CanonicalRoot(c, n);
      ghost var done := c.nodes.Keys - todo;
      assert c.nodes.Keys - (todo - {n}) == done + {n};
      forall r: Id {
        OneMoreNode(c, done, n, r);
      }
      forall r: Id, time: nat | resolved != Ok(r) && Newest(c, done, r, time) ensures Newest(c, done + {n}, r, time) {
        NewestOfOthers(c, done, n, r, time);
      }
      if resolved.Ok? {
        var root := resolved.value;
        NoTreeYet(c, done, root);
        forall time: nat | Newest(c, done, root, time)
          ensures Newest(c, done + {n}, root, if node.modified > time then node.modified else time)
        {
          NewestOfMore(c, done, n, root, time);
        }
        var group := if root in trees then trees[root] else Tree(root, {root}, 0);
        trees := trees[root := Tree(root, group.members + Contribution(c, node, root),
                                    if node.modified > group.modified then node.modified else group.modified)];
      }
      todo := todo - {n};
    }
    assert c.nodes.Keys - todo == c.nodes.Keys;
  }

  lemma NewestOfMore(c: Cat, done: set<Id>, n: Id, root: Id, time: nat)
    requires n in c.nodes && done <= c.nodes.Keys && Newest(c, done, root, time) && CanonicalRoot(c, n) == Ok(root)
    ensures Newest(c, done + {n}, root, if c.nodes[n].modified > time then c.nodes[n].modified else time)
  {
    hide CanonicalRoot;
  }

  lemma NewestOfOthers(c: Cat, done: set<Id>, n: Id, root: Id, time: nat)
    requires n in c.nodes && done <= c.nodes.Keys && Newest(c, done, root, time) && CanonicalRoot(c, n) != Ok(root)
    ensures Newest(c, done + {n}, root, time)
  {
    hide CanonicalRoot;
  }

  lemma OneMoreNode(c: Cat, done: set<Id>, n: Id, root: Id)
    requires n in c.nodes && done <= c.nodes.Keys
    ensures HasTree(c, done + {n}, root) <==> HasTree(c, done, root) || CanonicalRoot(c, n) == Ok(root)
    ensures MembersFrom(c, done + {n}, root) == MembersFrom(c, done, root)
            + if CanonicalRoot(c, n) == Ok(root) then Contribution(c, c.nodes[n], root) else {}
  {
  }

  lemma NoTrees(c: Cat)
    ensures forall r: Id :: !HasTree(c, c.nodes.Keys - c.nodes.Keys, r)
  {
  }

  lemma NoTreeYet(c: Cat, done: set<Id>, root: Id)
    requires done <= c.nodes.Keys
    ensures !HasTree(c, done, root) ==> MembersFrom(c, done, root) == {root} && Newest(c, done, root, 0)
  {
  }

  /** Every member of a tree has the tree's root as its canonical root. */
  lemma MemberResolves(c: Cat, root: Id, m: Id)
    requires Flagged(c) && HasTree(c, c.nodes.Keys, root) && m in MembersFrom(c, c.nodes.Keys, root)
    ensures CanonicalRoot(c, m) == Ok(root)
  {
    if m == root {
      var n :| n in c.nodes && CanonicalRoot(c, n) == Ok(root);
      RootIsFixed(c, n, {});
    }
  }

  /** The trees are pairwise disjoint, and each resolvable node belongs to exactly the tree of its root. */
  lemma TreesPartition(c: Cat, trees: map<Id, Tree>)
    requires Flagged(c)
    requires forall r: Id :: r in trees <==> HasTree(c, c.nodes.Keys, r)
    requires forall r | r in trees :: trees[r].root == r && trees[r].members == MembersFrom(c, c.nodes.Keys, r)
    ensures forall r, q | r in trees && q in trees && r != q :: trees[r].members !! trees[q].members
    ensures forall n, r | n in c.nodes && r in trees :: n in trees[r].members <==> CanonicalRoot(c, n) == Ok(r)
    ensures forall n | n in c.nodes && CanonicalRoot(c, n).Ok? :: CanonicalRoot(c, n).value in trees
  {
    hide MembersFrom, CanonicalRoot;
    forall r, m | r in trees && m in trees[r].members ensures CanonicalRoot(c, m) == Ok(r) {
      MemberResolves(c, r, m);
    }
    forall n, r | n in c.nodes && r in trees && CanonicalRoot(c, n) == Ok(r) ensures n in trees[r].members {
      NodeIsMember(c, r, n);
    }
    forall r, q, m | r in trees && q in trees && r != q && m in trees[r].members ensures m !in trees[q].members {
      assert CanonicalRoot(c, m) == Ok(r);
    }
  }

  lemma NodeIsMember(c: Cat, root: Id, n: Id)
    requires Flagged(c) && n in c.nodes && CanonicalRoot(c, n) == Ok(root)
    ensures n in MembersFrom(c, c.nodes.Keys, root)
  {
    assert n in Contribution(c, c.nodes[n], root);
  }

  // ---------------------------------------------------------------- components

  /** A set that contains all or nothing of what each node mentions. */
  ghost predicate Closed(c: Cat, s: set<Id>) {
    forall n | n in c.nodes :: Related(c.nodes[n]) !! s || Related(c.nodes[n]) <= s
  }

  /** `b` is in every closed set that contains `a`. */
  ghost predicate Connected(c: Cat, a: Id, b: Id) {
    forall s: set<Id> | a in s && Closed(c, s) :: b in s
  }

  ghost function AllIds(c: Cat): set<Id> {
    set n, x | n in c.nodes && x in Related(c.nodes[n]) :: x
  }

  lemma ConnectedTransitive(c: Cat, a: Id, b: Id, d: Id)
    requires Connected(c, a, b) && Connected(c, b, d)
    ensures Connected(c, a, d)
  {
  }

  lemma MentionedIsConnected(c: Cat, n: Id, a: Id, b: Id)
    requires n in c.nodes && a in Related(c.nodes[n]) && b in Related(c.nodes[n])
    ensures Connected(c, a, b)
  {
  }

  lemma ConnectedSymmetric(c: Cat, a: Id, b: Id)
    requires Connected(c, a, b)
    ensures Connected(c, b, a)
  {
    forall s: set<Id> | b in s && Closed(c, s) ensures a in s {
      var outside := AllIds(c) + {a} - s;
      assert Closed(c, outside) by {
        forall n | n in c.nodes ensures Related(c.nodes[n]) !! outside || Related(c.nodes[n]) <= outside {
          assert Related(c.nodes[n]) <= AllIds(c);
        }
      }
    }
  }

  /** One pass over the nodes, absorbing every node that touches the set. */
  method Absorb(c: Cat, id: Id, start: set<Id>) returns (connected: set<Id>, changed: bool)
    requires id in start && start <= AllIds(c) + {id}
    requires forall x | x in start :: Connected(c, id, x)
    ensures start <= connected <= AllIds(c) + {id}
    ensures forall x | x in connected :: Connected(c, id, x)
    ensures changed <==> connected != start
    ensures !changed ==> Closed(c, connected)
  {
    hide Connected;
    connected, changed := start, false;
    var todo := c.nodes.Keys;
    while todo != {}
      invariant todo <= c.nodes.Keys
      invariant start <= connected <= AllIds(c) + {id}
      invariant forall x | x in connected :: Connected(c, id, x)
      invariant changed <==> connected != start
      invariant !changed ==> forall n | n in c.nodes && n !in todo ::
                  Related(c.nodes[n]) !! connected || Related(c.nodes[n]) <= connected
      decreases todo
    {
      var n :| n in todo;
      var related := Related(c.nodes[n]);
      if related * connected != {} {
        ghost var a :| a in related && a in connected;
        assert related <= AllIds(c);
        forall x | x in related ensures Connected(c, id, x) {
          MentionedIsConnected(c, n, a, x);
          ConnectedTransitive(c, id, a, x);
        }
        if !(related <= connected) {
          changed := true;
        }
        connected := connected + related;
      }
      todo := todo - {n};
    }
  }

  /** The connected component of an id, as a fixpoint over the nodes. */
  method ConnectedIds(c: Cat, id: Id) returns (connected: set<Id>)
    ensures forall x :: x in connected <==> Connected(c, id, x)
  {
    connected := {id};
    var changed := true;
    while changed
      invariant id in connected && connected <= AllIds(c) + {id}
      invariant forall x | x in connected :: Connected(c, id, x)
      invariant !changed ==> Closed(c, connected)
      decreases AllIds(c) + {id} - connected, changed
    {
      ghost var before := connected;
      connected, changed := Absorb(c, id, connected);
      if changed {
        ghost var x :| x in connected && x !in before;
        assert x in AllIds(c) + {id} - before;
      }
    }
  }

  // ---------------------------------------------------------------- mutation

  /** No id of the component is suspect and every node in it resolves. */
  ghost predicate Mutable(c: Cat, id: Id) {
    forall x | Connected(c, id, x) :: x !in c.issues && CanonicalRoot(c, x).Ok?
  }

  lemma ParentSharesRoot(c: Cat, n: Id, visiting: set<Id>, x: Id)
    requires n in c.nodes && ParentId(c.nodes[n]) == Some(x) && ResolveRoot(c, n, visiting).Ok?
    ensures ResolveRoot(c, x, visiting + {n}) == ResolveRoot(c, n, visiting)
  {
  }

  lemma SessionIsRoot(c: Cat, n: Id, visiting: set<Id>, x: Id)
    requires n in c.nodes && c.nodes[n].session == Some(x) && x != n && ResolveRoot(c, n, visiting).Ok?
    ensures ResolveRoot(c, n, visiting) == Ok(x) == ResolveRoot(c, x, visiting + {n})
  {
  }

  /** All that a trusted, resolvable node mentions has the node's own root. */
  lemma MentionsShareRoot(c: Cat, n: Id, x: Id)
    requires Flagged(c) && n in c.nodes && n !in c.issues && CanonicalRoot(c, n).Ok?
    requires x in Related(c.nodes[n])
    ensures CanonicalRoot(c, x) == CanonicalRoot(c, n)
  {
    var node := c.nodes[n];
    if x != n {
      assert node.fork == Some(x) && node.parent.Some? ==> node.parent == node.fork;
      LinkResolves(c, n, {}, x);
      FewerOnPath(c, x, {} + {n}, {});
      if ParentId(node) == Some(x) {
        ParentSharesRoot(c, n, {}, x);
      } else {
        SessionIsRoot(c, n, {}, x);
      }
    }
  }

  /** A mutable component has one canonical root. */
  lemma ComponentHasOneRoot(c: Cat, id: Id, x: Id)
    requires Flagged(c) && Mutable(c, id) && Connected(c, id, x)
    ensures CanonicalRoot(c, x) == CanonicalRoot(c, id)
  {
    assert Connected(c, id, id);
    var same := set y | y in AllIds(c) + {id} && CanonicalRoot(c, y) == CanonicalRoot(c, id) && Connected(c, id, y);
    forall n | n in c.nodes ensures Related(c.nodes[n]) !! same || Related(c.nodes[n]) <= same {
      if y :| y in Related(c.nodes[n]) && y in same {
        MentionedIsConnected(c, n, y, n);
        ConnectedTransitive(c, id, y, n);
        MentionsShareRoot(c, n, y);
        forall z | z in Related(c.nodes[n]) ensures z in same {
          MentionsShareRoot(c, n, z);
          MentionedIsConnected(c, n, y, z);
          ConnectedTransitive(c, id, y, z);
          assert z in AllIds(c);
        }
      }
    }
    assert Closed(c, same);
  }

  /** A rollout is connected to its root. */
  lemma {:induction false} RootIsConnected(c: Cat, id: Id, visiting: set<Id>)
    requires Flagged(c) && ResolveRoot(c, id, visiting).Ok?
    ensures Connected(c, id, ResolveRoot(c, id, visiting).value)
    decreases c.nodes.Keys - visiting
  {
    if id in c.nodes {
      assert id in c.nodes.Keys - visiting;
      var node := c.nodes[id];
      if node.session.Some? {
        MentionedIsConnected(c, id, id, node.session.value);
      } else if ParentId(node).Some? {
        var parent := ParentId(node).value;
        MentionedIsConnected(c, id, id, parent);
        RootIsConnected(c, parent, visiting + {id});
        ConnectedTransitive(c, id, parent, ResolveRoot(c, id, visiting).value);
      }
    }
  }

  /** Everything in the tree of `id` is connected to `id`. */
  lemma TreeWithinComponent(c: Cat, id: Id, m: Id)
    requires Flagged(c) && CanonicalRoot(c, id).Ok?
    requires m in MembersFrom(c, c.nodes.Keys, CanonicalRoot(c, id).value)
    ensures Connected(c, id, m)
  {
    var root := CanonicalRoot(c, id).value;
    RootIsConnected(c, id, {});
    if m != root {
      var n :| n in c.nodes && CanonicalRoot(c, n) == Ok(root) && m in Contribution(c, c.nodes[n], root);
      RootIsConnected(c, n, {});
      ConnectedSymmetric(c, n, root);
      MentionedIsConnected(c, n, n, m);
      ConnectedTransitive(c, id, root, n);
      ConnectedTransitive(c, id, n, m);
    }
  }

  /** Everything connected to `id` is in its tree. */
  lemma ComponentWithinTree(c: Cat, id: Id, m: Id)
    requires Flagged(c) && Mutable(c, id) && Connected(c, id, m)
    ensures CanonicalRoot(c, id).Ok? && m in MembersFrom(c, c.nodes.Keys, CanonicalRoot(c, id).value)
  {
    assert Connected(c, id, id);
    var root := CanonicalRoot(c, id).value;
    ComponentHasOneRoot(c, id, m);
    if m in c.nodes {
      assert m in Contribution(c, c.nodes[m], root);
    }
  }

  /** Everything connected to `id` resolves, and to one root. */
  ghost predicate OneRoot(c: Cat, id: Id) {
    forall x | Connected(c, id, x) :: CanonicalRoot(c, x).Ok? && CanonicalRoot(c, x) == CanonicalRoot(c, id)
  }

  ghost predicate IsComponent(c: Cat, id: Id, members: set<Id>) { forall x :: x in members <==> Connected(c, id, x) }

  lemma TreeHasOneRoot(c: Cat, id: Id, m: Id)
    requires Flagged(c) && CanonicalRoot(c, id).Ok?
    requires m in MembersFrom(c, c.nodes.Keys, CanonicalRoot(c, id).value)
    ensures CanonicalRoot(c, m) == CanonicalRoot(c, id)
  {
    var root := CanonicalRoot(c, id).value;
    if HasTree(c, c.nodes.Keys, root) {
      MemberResolves(c, root, m);
    } else {
      RootIsFixed(c, id, {});
    }
  }

  /** The tree of `id` is the whole component if and only if everything connected to `id` has the root of `id`. */
  lemma TreeIsComponentExactly(c: Cat, id: Id)
    requires Flagged(c) && CanonicalRoot(c, id).Ok?
    ensures IsComponent(c, id, MembersFrom(c, c.nodes.Keys, CanonicalRoot(c, id).value)) <==> OneRoot(c, id)
  {
    var root := CanonicalRoot(c, id).value;
    var members := MembersFrom(c, c.nodes.Keys, root);
    hide MembersFrom, CanonicalRoot, Connected, HasTree;
    forall m | m in members ensures Connected(c, id, m) && CanonicalRoot(c, m) == Ok(root) {
      TreeWithinComponent(c, id, m);
      TreeHasOneRoot(c, id, m);
    }
    forall x | CanonicalRoot(c, x) == Ok(root) ensures x in members {
      ResolvedIsMember(c, root, x);
    }
  }

  lemma ResolvedIsMember(c: Cat, root: Id, x: Id)
    requires Flagged(c) && CanonicalRoot(c, x) == Ok(root)
    ensures x in MembersFrom(c, c.nodes.Keys, root)
  {
    if x in c.nodes {
      NodeIsMember(c, root, x);
    }
  }

  /** The tree a rollout belongs to; one that no node resolves to is a tree of its own. */
  method TreeFor(c: Cat, id: Id) returns (result: Result<Tree, Failure>)
    requires Flagged(c)
    ensures result.Ok? <==> CanonicalRoot(c, id).Ok?
    ensures result.Ok? ==>
              && result.value.root == CanonicalRoot(c, id).value
              && result.value.members == MembersFrom(c, c.nodes.Keys, result.value.root)
              && Newest(c, c.nodes.Keys, result.value.root, result.value.modified)
              && (IsComponent(c, id, result.value.members) <==> OneRoot(c, id))
  {
    var root := CanonicalRoot(c, id);
    if root.Err? {
      return Err(root.error);
    }
    var trees := SessionTrees(c);
    NoTreeYet(c, c.nodes.Keys, root.value);
    TreeIsComponentExactly(c, id);
    result := Ok(if root.value in trees then trees[root.value] else Tree(root.value, {root.value}, 0));
  }

  /**
    The tree a route mutation acts on.  It is granted exactly when the whole connected
    component is sound; then that component has one canonical root, the returned members are
    exactly the component, and every member would have been given the same tree.
   */
  method MutationTree(c: Cat, id: Id) returns (result: Result<Tree, Failure>)
    requires Flagged(c)
    ensures result.Ok? <==> Mutable(c, id)
    ensures result.Ok? ==> forall x :: x in result.value.members <==> Connected(c, id, x)
    ensures result.Ok? ==> forall x | x in result.value.members :: CanonicalRoot(c, x) == Ok(result.value.root)
  {
    var connected := ConnectedIds(c, id);
    assert id in connected;
    if connected * c.issues != {} {
      ghost var x :| x in connected && x in c.issues;
      assert Connected(c, id, x);
      return Err(Issue);
    }
    var todo := connected;
    while todo != {}
      invariant todo <= connected
      invariant forall x | x in connected && x !in todo :: CanonicalRoot(c, x).Ok?
      decreases todo
    {
      var x :| x in todo;
      if x in c.nodes {
        var root := CanonicalRoot(c, x);
        if root.Err? {
          assert Connected(c, id, x);
          return Err(root.error);
        }
      } else {
        assert x !in connected * c.issues;
      }
      todo := todo - {x};
    }
    assert Mutable(c, id);
    result := TreeFor(c, id);
    forall x | x in result.value.members ensures Connected(c, id, x) {
      TreeWithinComponent(c, id, x);
    }
    forall x | Connected(c, id, x) ensures x in result.value.members && CanonicalRoot(c, x) == Ok(result.value.root) {
      ComponentWithinTree(c, id, x);
      ComponentHasOneRoot(c, id, x);
    }
  }

  lemma {:induction false} MutableFromAnyMember(c: Cat, id: Id, x: Id)
    requires Mutable(c, id) && Connected(c, id, x)
    ensures Mutable(c, x) && forall y :: Connected(c, x, y) <==> Connected(c, id, y)
  {
    ConnectedSymmetric(c, id, x);
    forall y ensures Connected(c, x, y) <==> Connected(c, id, y) {
      if Connected(c, x, y) {
        ConnectedTransitive(c, id, x, y);
      } else if Connected(c, id, y) {
        ConnectedTransitive(c, x, id, y);
      }
    }
  }

  const SPLIT_FORK: Cat :=
    Cat(map[1 := Node(1, None, Some(2), Some(3), 0),
            2 := Node(2, None, None, None, 0),
            3 := Node(3, None, None, None, 0)], {})

  lemma SplitForkRoots()
    ensures CanonicalRoot(SPLIT_FORK, 1) == Ok(2)
    ensures CanonicalRoot(SPLIT_FORK, 2) == Ok(2)
    ensures CanonicalRoot(SPLIT_FORK, 3) == Ok(3)
  {
    assert ResolveRoot(SPLIT_FORK, 2, {} + {1}) == Ok(2);
  }

  lemma SplitForkClosed()
    ensures Closed(SPLIT_FORK, {1, 2, 3})
  {
  }

  lemma SplitForkMembers(n: Id)
    requires n in SPLIT_FORK.nodes && CanonicalRoot(SPLIT_FORK, n) == Ok(2)
    ensures 3 !in Contribution(SPLIT_FORK, SPLIT_FORK.nodes[n], 2)
  {
    hide CanonicalRoot;
    SplitForkRoots();
  }

  /**
    The guarantee rests on discovery: in a catalog where a node with differing parent and fork
    ids had not been flagged, the component would look sound and its tree would miss the fork.
   */
  lemma UnflaggedForkIsPartial()
    ensures Mutable(SPLIT_FORK, 1) && Connected(SPLIT_FORK, 1, 3)
    ensures CanonicalRoot(SPLIT_FORK, 1) == Ok(2)
    ensures 3 !in MembersFrom(SPLIT_FORK, SPLIT_FORK.nodes.Keys, 2)
  {
    hide CanonicalRoot, Closed, Contribution;
    SplitForkRoots();
    SplitForkClosed();
    MentionedIsConnected(SPLIT_FORK, 1, 1, 3);
    forall x | Connected(SPLIT_FORK, 1, x) ensures x in {1, 2, 3} {
    }
    forall n | n in SPLIT_FORK.nodes && CanonicalRoot(SPLIT_FORK, n) == Ok(2)
      ensures 3 !in Contribution(SPLIT_FORK, SPLIT_FORK.nodes[n], 2)
    {
      SplitForkMembers(n);
    }
  }
}
