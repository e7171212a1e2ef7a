/** Root resolution as a statement about the link graph: cycles, contexts and fixed points. */
module CatalogGraph {
  import opened Base
  import opened Catalog

  /** `b` is a link of `a` that resolution follows. */
  ghost predicate Link(c: Cat, a: Id, b: Id) {
    a in c.nodes && (ParentId(c.nodes[a]) == Some(b) || (c.nodes[a].session == Some(b) && b != a))
  }

  ghost predicate IsPath(c: Cat, p: seq<Id>) {
    |p| > 0 && forall i | 0 <= i < |p| - 1 :: Link(c, p[i], p[i + 1])
  }

  /** A path from `id` that closes a loop: its last node lies on it already, or in `visiting`. */
  ghost predicate Loops(c: Cat, id: Id, visiting: set<Id>) {
    exists p: seq<Id> :: IsPath(c, p) && p[0] == id && Closes(c, p, visiting)
  }

  ghost predicate Closes(c: Cat, p: seq<Id>, visiting: set<Id>)
    requires |p| > 0
  {
    p[|p| - 1] in c.nodes && (p[|p| - 1] in visiting || p[|p| - 1] in p[..|p| - 1])
  }

  /** Success for a rollout means success for everything it links to, further down the path. */
  lemma LinkResolves(c: Cat, id: Id, visiting: set<Id>, b: Id)
    requires ResolveRoot(c, id, visiting).Ok? && Link(c, id, b)
    ensures ResolveRoot(c, b, visiting + {id}).Ok?
  {
  }

  lemma {:induction false} PathResolves(c: Cat, p: seq<Id>, visiting: set<Id>)
    requires IsPath(c, p) && ResolveRoot(c, p[0], visiting).Ok?
    ensures !Closes(c, p, visiting)
    decreases |p|
  {
    if |p| > 1 {
      LinkResolves(c, p[0], visiting, p[1]);
      var q := p[1..];
      forall i | 0 <= i < |q| - 1 ensures Link(c, q[i], q[i + 1]) {
        var j := i + 1;
        assert Link(c, p[j], p[j + 1]);
      }
      PathResolves(c, q, visiting + {p[0]});
      assert p[..|p| - 1] == [p[0]] + q[..|q| - 1];
    }
  }

  /** If a rollout resolves, nothing it can reach lies on a cycle or on the path that led to it. */
  lemma ResolvedIsAcyclic(c: Cat, id: Id, visiting: set<Id>)
    requires ResolveRoot(c, id, visiting).Ok?
    ensures !Loops(c, id, visiting)
  {
    forall p: seq<Id> | IsPath(c, p) && p[0] == id ensures !Closes(c, p, visiting) {
      PathResolves(c, p, visiting);
    }
  }

  lemma LoopThroughLink(c: Cat, id: Id, visiting: set<Id>, b: Id)
    requires Link(c, id, b) && Loops(c, b, visiting + {id})
    ensures Loops(c, id, visiting)
  {
    var q: seq<Id> :| IsPath(c, q) && q[0] == b && Closes(c, q, visiting + {id});
    var p := [id] + q;
    assert IsPath(c, p);
    assert p[..|p| - 1] == [id] + q[..|q| - 1];
    assert Closes(c, p, visiting);
  }

  /** A cycle is reported only if following links really closes a loop. */
  lemma {:induction false} CycleIsReal(c: Cat, id: Id, visiting: set<Id>)
    requires ResolveRoot(c, id, visiting) == Err(Cycle)
    ensures Loops(c, id, visiting)
    decreases c.nodes.Keys - visiting
  {
    if id in visiting {
      assert IsPath(c, [id]) && Closes(c, [id], visiting);
    } else {
      assert id in c.nodes.Keys - visiting;
      var node, deeper := c.nodes[id], visiting + {id};
      var parent := ParentId(node);
      if node.session.Some? && node.session.value != id && node.session.value in c.nodes
         && ResolveRoot(c, node.session.value, deeper) == Err(Cycle) {
        CycleIsReal(c, node.session.value, deeper);
        LoopThroughLink(c, id, visiting, node.session.value);
      } else {
        CycleIsReal(c, parent.value, deeper);
        LoopThroughLink(c, id, visiting, parent.value);
      }
    }
  }

  /** A result found deep in a search is the result found from anywhere higher up. */
  lemma {:induction false} FewerOnPath(c: Cat, id: Id, visiting: set<Id>, fewer: set<Id>)
    requires fewer <= visiting && ResolveRoot(c, id, visiting).Ok?
    ensures ResolveRoot(c, id, fewer) == ResolveRoot(c, id, visiting)
    decreases c.nodes.Keys - visiting
  {
    if id in c.nodes {
      assert id in c.nodes.Keys - visiting;
      var node := c.nodes[id];
      if node.session.Some? && node.session.value != id && node.session.value in c.nodes {
        FewerOnPath(c, node.session.value, visiting + {id}, fewer + {id});
      }
      if ParentId(node).Some? {
        FewerOnPath(c, ParentId(node).value, visiting + {id}, fewer + {id});
      }
    }
  }

  /** Adding ids to the path is harmless as long as no link leads back to one of them. */
  lemma {:induction false} MoreOnPath(c: Cat, id: Id, visiting: set<Id>, more: set<Id>)
    requires ResolveRoot(c, id, visiting).Ok? && !Loops(c, id, more)
    ensures ResolveRoot(c, id, visiting + more) == ResolveRoot(c, id, visiting)
    decreases c.nodes.Keys - visiting
  {
    if id in c.nodes {
      assert id in c.nodes.Keys - visiting;
      assert id !in more by {
        assert IsPath(c, [id]) && (id in more ==> Closes(c, [id], more));
      }
      var node := c.nodes[id];
      assert visiting + more + {id} == visiting + {id} + more;
      if node.session.Some? && node.session.value != id && node.session.value in c.nodes {
        StillNoLoop(c, id, more, node.session.value);
        MoreOnPath(c, node.session.value, visiting + {id}, more);
      }
      if ParentId(node).Some? {
        StillNoLoop(c, id, more, ParentId(node).value);
        MoreOnPath(c, ParentId(node).value, visiting + {id}, more);
      }
    }
  }

  lemma StillNoLoop(c: Cat, id: Id, more: set<Id>, b: Id)
    requires Link(c, id, b) && !Loops(c, id, more)
    ensures !Loops(c, b, more)
  {
    forall q: seq<Id> | IsPath(c, q) && q[0] == b ensures !Closes(c, q, more) {
      var p := [id] + q;
      assert IsPath(c, p);
      assert p[..|p| - 1] == [id] + q[..|q| - 1];
      assert !Closes(c, p, more);
    }
  }

  /**
    Resolution does not depend on the path it is reached by: with any set of ids already
    visited it succeeds exactly when it succeeds on its own and no link leads back into that
    set, and then with the same root.
   */
  lemma ContextExact(c: Cat, id: Id, visiting: set<Id>)
    ensures ResolveRoot(c, id, visiting).Ok? <==> CanonicalRoot(c, id).Ok? && !Loops(c, id, visiting)
    ensures ResolveRoot(c, id, visiting).Ok? ==> ResolveRoot(c, id, visiting) == CanonicalRoot(c, id)
  {
    if ResolveRoot(c, id, visiting).Ok? {
      FewerOnPath(c, id, visiting, {});
      ResolvedIsAcyclic(c, id, visiting);
    } else if CanonicalRoot(c, id).Ok? && !Loops(c, id, visiting) {
      assert {} + visiting == visiting;
      MoreOnPath(c, id, {}, visiting);
    }
  }

  /** The canonical root of a rollout is its own canonical root. */
  lemma {:induction false} RootIsFixed(c: Cat, id: Id, visiting: set<Id>)
    requires ResolveRoot(c, id, visiting).Ok?
    ensures var root := ResolveRoot(c, id, visiting).value; CanonicalRoot(c, root) == Ok(root)
    decreases c.nodes.Keys - visiting
  {
    FewerOnPath(c, id, visiting, {});
    if id in c.nodes {
      assert id in c.nodes.Keys - visiting;
      var node := c.nodes[id];
      if node.session.Some? {
        if node.session.value != id && node.session.value in c.nodes {
          FewerOnPath(c, node.session.value, visiting + {id}, {});
        }
      } else if ParentId(node).Some? {
        RootIsFixed(c, ParentId(node).value, visiting + {id});
      }
    }
  }
}
