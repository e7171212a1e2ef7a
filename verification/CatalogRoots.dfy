/** Which rollouts resolve, and to what, without searching: by labels that agree with every link. */
module CatalogRoots {
  import opened Base
  import opened Catalog
  import opened CatalogGraph
  import opened CatalogTrees

  /** The label of `x` agrees with what its own metadata says. */
  ghost predicate Agrees(c: Cat, labels: map<Id, Id>, x: Id)
    requires x in labels
  {
    x !in c.issues &&
    if x !in c.nodes then labels[x] == x
    else
      var node := c.nodes[x];
      && (forall p | ParentId(node) == Some(p) :: p in labels && labels[p] == labels[x])
      && (match node.session
          case None => ParentId(node).None? ==> labels[x] == x
          case Some(s) =>
            && labels[x] == s
            && (s != x && s in c.nodes ==> s in labels && labels[s] == s)
            && (s != x && s !in c.nodes ==> s !in c.issues))
  }

  /** Labels that agree with all the metadata, for an id and everything its links lead to. */
  ghost predicate Labelling(c: Cat, labels: map<Id, Id>) { forall x | x in labels :: Agrees(c, labels, x) }

  /** The labels a search gives. */
  ghost function Found(c: Cat, id: Id): map<Id, Id> {
    map x | x in AllIds(c) + {id} && CanonicalRoot(c, x).Ok? :: CanonicalRoot(c, x).value
  }

  lemma LinkFound(c: Cat, x: Id, b: Id)
    requires CanonicalRoot(c, x).Ok? && Link(c, x, b)
    ensures CanonicalRoot(c, b).Ok? && ResolveRoot(c, b, {} + {x}) == CanonicalRoot(c, b)
  {
    LinkResolves(c, x, {}, b);
    FewerOnPath(c, b, {} + {x}, {});
  }

  /** What success says of a rollout's own links. */
  lemma ResolvedLinks(c: Cat, x: Id)
    requires x in c.nodes && CanonicalRoot(c, x).Ok?
    ensures var node, root := c.nodes[x], CanonicalRoot(c, x).value;
            && x !in c.issues
            && (forall p | ParentId(node) == Some(p) :: CanonicalRoot(c, p) == Ok(root))
            && (node.session.None? && ParentId(node).None? ==> root == x)
            && (forall s | node.session == Some(s) ::
                  && root == s && (s != x && s in c.nodes ==> CanonicalRoot(c, s) == Ok(s))
                  && (s != x && s !in c.nodes ==> s !in c.issues))
  {
    var node := c.nodes[x];
    if ParentId(node).Some? {
      LinkFound(c, x, ParentId(node).value);
    }
    if node.session.Some? {
      var s := node.session.value;
      assert ResolveSession(c, x, s, {}).Ok? && CanonicalRoot(c, x) == Ok(s);
      if s != x {
        LinkFound(c, x, s);
        assert s in c.nodes ==> ResolveRoot(c, s, {} + {x}) == Ok(s);
      }
    }
  }

  lemma FoundAgrees(c: Cat, id: Id, x: Id)
    requires x in Found(c, id)
    ensures Agrees(c, Found(c, id), x)
  {
    if x in c.nodes {
      assert Related(c.nodes[x]) <= AllIds(c);
      ResolvedLinks(c, x);
    } else {
      assert CanonicalRoot(c, x) == Ok(x) && x !in c.issues;
    }
    hide ResolveRoot, AllIds;
  }

  /** A search finds the label of every id from which no link closes a loop. */
  lemma {:induction false} LabelFound(c: Cat, labels: map<Id, Id>, x: Id, visiting: set<Id>)
    requires Labelling(c, labels) && x in labels && !Loops(c, x, visiting)
    ensures ResolveRoot(c, x, visiting) == Ok(labels[x])
    decreases c.nodes.Keys - visiting
  {
    assert Agrees(c, labels, x);
    if x in c.nodes {
      assert !Closes(c, [x], visiting) by { assert IsPath(c, [x]); }
      assert x in c.nodes.Keys - visiting;
      forall b | Link(c, x, b) ensures !Loops(c, b, visiting + {x}) {
        if Loops(c, b, visiting + {x}) { LoopThroughLink(c, x, visiting, b); }
      }
      hide Loops;
      var node := c.nodes[x];
      if node.session.Some? && node.session.value != x && node.session.value in c.nodes {
        LabelFound(c, labels, node.session.value, visiting + {x});
      }
      if ParentId(node).Some? {
        LabelFound(c, labels, ParentId(node).value, visiting + {x});
      }
    }
  }

  /**
    A rollout resolves to a root exactly when no link from it closes a loop and some labels agree with
    all the metadata its links lead to and give it that root.
   */
  lemma ResolvedExactly(c: Cat, id: Id, root: Id)
    ensures CanonicalRoot(c, id) == Ok(root) <==>
              !Loops(c, id, {}) && exists labels :: Labelling(c, labels) && id in labels && labels[id] == root
  {
    if CanonicalRoot(c, id) == Ok(root) {
      ResolvedIsAcyclic(c, id, {});
      forall x | x in Found(c, id) ensures Agrees(c, Found(c, id), x) {
        FoundAgrees(c, id, x);
      }
      assert Labelling(c, Found(c, id)) && id in Found(c, id) && Found(c, id)[id] == root;
    }
    if labels :| !Loops(c, id, {}) && Labelling(c, labels) && id in labels && labels[id] == root {
      hide Loops;
      LabelFound(c, labels, id, {});
    }
  }

  // ---------------------------------------------------------------- discovery

  /** A file states that rollout `id` has these links. */
  ghost predicate States(r: Rollout, id: Id, session: Option<Id>, parent: Option<Id>, fork: Option<Id>, modified: nat) {
    || (r.Parsed? && r.node == Node(id, session, parent, fork, modified))
    || (r == Bare(Some(id), modified) && session == None && parent == None && fork == None)
  }

  /** One file alone makes `id` suspect: it is misnamed, names two parents, or cannot be read. */
  ghost predicate SuspectedBy(r: Rollout, id: Id) {
    || (r.Parsed? && r.fileId.Some? && r.fileId.value != r.node.id && id in {r.fileId.value, r.node.id})
    || (r.Parsed? && r.node.id == id && exists p, f :: r.node.parent == Some(p) && r.node.fork == Some(f) && p != f)
    || r == Malformed(Some(id))
  }

  /** Two files disagree about the links of `id`. */
  ghost predicate Disagree(a: Rollout, b: Rollout, id: Id) {
    exists s, p, f, m, t, q, g, n ::
      States(a, id, s, p, f, m) && States(b, id, t, q, g, n) && (s != t || p != q || f != g)
  }

  lemma StatesExactly(r: Rollout, id: Id, session: Option<Id>, parent: Option<Id>, fork: Option<Id>, modified: nat)
    ensures States(r, id, session, parent, fork, modified) <==>
              Adds(r, id) && NodeOf(r) == Some(Node(id, session, parent, fork, modified))
  {}

  lemma SuspectsExactly(r: Rollout, id: Id)
    ensures id in Suspects(r) <==> SuspectedBy(r, id)
  {}

  lemma DisagreeExactly(a: Rollout, b: Rollout, id: Id)
    ensures Clash(a, b, id) <==> Disagree(a, b, id)
  {
    forall r, s, p, f, m
      ensures States(r, id, s, p, f, m) <==> Adds(r, id) && NodeOf(r) == Some(Node(id, s, p, f, m))
    {
      StatesExactly(r, id, s, p, f, m);
    }
    if Clash(a, b, id) {
      var x, y := NodeOf(a).value, NodeOf(b).value;
      assert States(a, id, x.session, x.parent, x.fork, x.modified);
      assert States(b, id, y.session, y.parent, y.fork, y.modified);
    }
    hide States;
  }

  /** The ids discovery finds are those some file states, with such links and the newest time of all. */
  lemma NodesByFiles(rollouts: seq<Rollout>, c: Cat, id: Id)
    requires Discovered(rollouts, c)
    ensures id in c.nodes <==> exists r, s, p, f, m: nat | r in rollouts :: States(r, id, s, p, f, m)
    ensures id in c.nodes ==>
              var node := c.nodes[id];
              && node.id == id
              && (exists r, m: nat | r in rollouts :: States(r, id, node.session, node.parent, node.fork, m))
              && (exists r, s, p, f | r in rollouts :: States(r, id, s, p, f, node.modified))
              && (forall r, s, p, f, m: nat | r in rollouts && States(r, id, s, p, f, m) :: m <= node.modified)
  {
    forall r, s, p, f, m: nat
      ensures States(r, id, s, p, f, m) <==> Adds(r, id) && NodeOf(r) == Some(Node(id, s, p, f, m))
    {
      StatesExactly(r, id, s, p, f, m);
    }
    hide States, Suspect, NodeOf;
    forall r | r in rollouts && Adds(r, id)
      ensures var n := NodeOf(r).value; States(r, id, n.session, n.parent, n.fork, n.modified)
    {}
    if id in c.nodes {
      assert NodeFrom(rollouts, c.nodes[id], id);
    }
  }

  /** The suspect ids are those of misnamed, two-parented or unreadable files, and those on which two files disagree. */
  lemma IssuesByFiles(rollouts: seq<Rollout>, c: Cat, id: Id)
    requires Discovered(rollouts, c)
    ensures id in c.issues <==>
              || (exists r | r in rollouts :: SuspectedBy(r, id))
              || (exists a, b | a in rollouts && b in rollouts :: Disagree(a, b, id))
  {
    assert id in c.issues <==> Suspect(rollouts, id);
    forall r ensures id in Suspects(r) <==> SuspectedBy(r, id) {
      SuspectsExactly(r, id);
    }
    forall a, b ensures Clash(a, b, id) <==> Disagree(a, b, id) {
      DisagreeExactly(a, b, id);
    }
    hide Discovered, Suspects, Clash, SuspectedBy, Disagree;
  }
}
