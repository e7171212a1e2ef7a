/**
  The local catalog of rollouts and the link graph between them: `session_id` names the
  authoritative root of a rollout, `parent_thread_id` and `forked_from_id` its parent.
 */
module Catalog {
  import opened Base

  type Id = nat

  datatype Node = Node(id: Id, session: Option<Id>, parent: Option<Id>, fork: Option<Id>, modified: nat)

  /** The nodes found on disk, and the ids whose metadata cannot be trusted. */
  datatype Cat = Cat(nodes: map<Id, Node>, issues: set<Id>)

  datatype Failure = Issue | Cycle | NotRoot | Conflict

  function Present(id: Option<Id>): set<Id> {
    if id.Some? then {id.value} else {}
  }

  function ParentId(node: Node): Option<Id> {
    if node.parent.Some? then node.parent else node.fork
  }

  /** Every id a node mentions. */
  function Related(node: Node): set<Id> {
    {node.id} + Present(node.session) + Present(node.parent) + Present(node.fork)
  }

  predicate SameLinks(a: Node, b: Node) {
    a.session == b.session && a.parent == b.parent && a.fork == b.fork
  }

  /** A node whose parent and fork ids differ is recorded as an issue, and nodes are filed under their id. */
  ghost predicate Flagged(c: Cat) {
    forall n | n in c.nodes ::
      && c.nodes[n].id == n
      && (c.nodes[n].parent.Some? && c.nodes[n].fork.Some? && c.nodes[n].parent != c.nodes[n].fork ==> n in c.issues)
  }

  // ---------------------------------------------------------------- discovery

  /** One rollout file: its node if the metadata parsed, and the id in the file name if there is one. */
  datatype Rollout = Parsed(node: Node, fileId: Option<Id>) | Malformed(fileId: Option<Id>)
      | Bare(fileId: Option<Id>, modified: nat)

  /** The node a file adds, if any. */
  function NodeOf(r: Rollout): Option<Node> {
    match r
    case Parsed(node, _) => Some(node)
    case Bare(Some(id), modified) => Some(Node(id, None, None, None, modified))
    case _ => None
  }

  /** The ids that one file alone makes suspect. */
  function Suspects(r: Rollout): set<Id> {
    match r
    case Parsed(node, fileId) =>
      (if fileId.Some? && fileId.value != node.id then {fileId.value, node.id} else {})
      + (if node.parent.Some? && node.fork.Some? && node.parent != node.fork then {node.id} else {})
    case Malformed(Some(fileId)) => {fileId}
    case _ => {}
  }

  predicate Adds(r: Rollout, id: Id) { NodeOf(r).Some? && NodeOf(r).value.id == id }

  /** Two files give one id different links. */
  predicate Clash(a: Rollout, b: Rollout, id: Id) {
    Adds(a, id) && Adds(b, id) && !SameLinks(NodeOf(a).value, NodeOf(b).value)
  }

  ghost predicate Suspect(rollouts: seq<Rollout>, id: Id) {
    (exists r | r in rollouts :: id in Suspects(r)) || (exists a, b | a in rollouts && b in rollouts :: Clash(a, b, id))
  }

  /** The node of an id agrees with some file, links and all, and has the newest time of all its files. */
  ghost predicate NodeFrom(rollouts: seq<Rollout>, node: Node, id: Id) {
    && node.id == id
    && (exists r | r in rollouts :: Adds(r, id) && SameLinks(NodeOf(r).value, node))
    && (exists r | r in rollouts :: Adds(r, id) && NodeOf(r).value.modified == node.modified)
    && (forall r | r in rollouts && Adds(r, id) :: NodeOf(r).value.modified <= node.modified)
  }

  /** Exactly the nodes and the issues that the files give. */
  ghost predicate Discovered(rollouts: seq<Rollout>, c: Cat) {
    && NodesFound(rollouts, c)
    && (forall id :: id in c.issues <==> Suspect(rollouts, id))
  }

  function Filed(nodes: map<Id, Node>, node: Node): map<Id, Node> {
    if node.id !in nodes then nodes[node.id := node]
    else
      var known := nodes[node.id];
      nodes[node.id := known.(modified := if known.modified < node.modified then node.modified else known.modified)]
  }

  /** The catalog after one more file. */
  function Added(c: Cat, r: Rollout): Cat {
    match NodeOf(r)
    case None => c.(issues := c.issues + Suspects(r))
    case Some(node) =>
      Cat(Filed(c.nodes, node),
          c.issues + Suspects(r) + if node.id in c.nodes && !SameLinks(c.nodes[node.id], node) then {node.id} else {})
  }

  ghost predicate NodesFound(rollouts: seq<Rollout>, c: Cat) {
    && (forall id :: id in c.nodes <==> exists r | r in rollouts :: Adds(r, id))
    && (forall id | id in c.nodes :: NodeFrom(rollouts, c.nodes[id], id))
  }

  lemma AddedNode(known: seq<Rollout>, r: Rollout, c: Cat, id: Id)
    requires NodesFound(known, c)
    ensures id in Added(c, r).nodes <==> id in c.nodes || Adds(r, id)
    ensures id in Added(c, r).nodes ==> NodeFrom(known + [r], Added(c, r).nodes[id], id)
  {
    var all, after := known + [r], Added(c, r);
    assert forall x | x in known :: x in all;
    assert r in all;
    hide Suspects;
    if id in c.nodes {
      assert NodeFrom(known, c.nodes[id], id);
    }
  }

  lemma AddedNodes(known: seq<Rollout>, r: Rollout, c: Cat)
    requires NodesFound(known, c)
    ensures NodesFound(known + [r], Added(c, r))
  {
    var all, after := known + [r], Added(c, r);
    hide Added, NodeFrom, Adds;
    forall id ensures id in after.nodes <==> exists x | x in all :: Adds(x, id)
      ensures id in after.nodes ==> NodeFrom(all, after.nodes[id], id)
    {
      AddedNode(known, r, c, id);
      assert r in all && forall x | x in known :: x in all;
    }
  }

  lemma AddedIssue(known: seq<Rollout>, r: Rollout, c: Cat, id: Id)
    requires NodesFound(known, c) && (id in c.issues <==> Suspect(known, id))
    ensures id in Added(c, r).issues <==> Suspect(known + [r], id)
  {
    var all := known + [r];
    assert r in all && forall x | x in known :: x in all;
    hide Suspects;
    if id in c.nodes && Adds(r, id) {
      assert NodeFrom(known, c.nodes[id], id);
      var k :| k in known && Adds(k, id) && SameLinks(NodeOf(k).value, c.nodes[id]);
      assert !SameLinks(c.nodes[id], NodeOf(r).value) ==> Clash(k, r, id);
      if a :| a in known && Clash(a, r, id) {
        assert SameLinks(c.nodes[id], NodeOf(r).value) ==> Clash(a, k, id);
      }
    }
    assert forall a, b :: Clash(a, b, id) ==> Clash(b, a, id);
  }

  lemma AddedIssues(known: seq<Rollout>, r: Rollout, c: Cat)
    requires NodesFound(known, c) && forall id :: id in c.issues <==> Suspect(known, id)
    ensures forall id :: id in Added(c, r).issues <==> Suspect(known + [r], id)
  {
    hide *;
    forall id ensures id in Added(c, r).issues <==> Suspect(known + [r], id) {
      AddedIssue(known, r, c, id);
    }
  }

  lemma OneMoreFile(known: seq<Rollout>, r: Rollout, c: Cat)
    requires Discovered(known, c)
    ensures Discovered(known + [r], Added(c, r))
  {
    hide NodesFound, Suspect, Added;
    AddedNodes(known, r, c);
    AddedIssues(known, r, c);
  }

  lemma NothingDiscovered()
    ensures Discovered([], Cat(map[], {}))
  {}

  lemma DiscoveryFlags(rollouts: seq<Rollout>, c: Cat)
    requires Discovered(rollouts, c)
    ensures Flagged(c)
  {
    forall id | id in c.nodes && c.nodes[id].parent.Some? && c.nodes[id].fork.Some?
        && c.nodes[id].parent != c.nodes[id].fork
      ensures id in c.issues
    {
      assert NodeFrom(rollouts, c.nodes[id], id);
      var r :| r in rollouts && Adds(r, id) && SameLinks(NodeOf(r).value, c.nodes[id]);
      assert id in Suspects(r);
    }
  }

  /** The order in which files are read decides nothing but which of two clashing nodes is kept. */
  lemma ReadingOrderIsFree(a: seq<Rollout>, b: seq<Rollout>, x: Cat, y: Cat)
    requires Discovered(a, x) && Discovered(b, y) && forall r :: r in a <==> r in b
    ensures x.nodes.Keys == y.nodes.Keys && x.issues == y.issues
    ensures forall id | id in x.nodes && id !in x.issues :: x.nodes[id] == y.nodes[id]
  {
    assert forall id :: Suspect(a, id) <==> Suspect(b, id);
    forall id | id in x.nodes && id !in x.issues ensures x.nodes[id] == y.nodes[id] {
      assert NodeFrom(a, x.nodes[id], id) && NodeFrom(b, y.nodes[id], id);
      var r :| r in a && Adds(r, id) && SameLinks(NodeOf(r).value, x.nodes[id]);
      var q :| q in b && Adds(q, id) && SameLinks(NodeOf(q).value, y.nodes[id]);
      assert !Clash(r, q, id);
    }
  }

  class SessionCatalog {
    var nodes: map<Id, Node>
    var issues: set<Id>

    ghost function State(): Cat
      reads this
    {
      Cat(nodes, issues)
    }

    constructor ()
      ensures State() == Cat(map[], {})
    {
      nodes, issues := map[], {};
    }

    /** Files a node; a second rollout with other links makes the id untrustworthy. */
    method InsertNode(node: Node)
      modifies this
      ensures nodes == Filed(old(nodes), node)
      ensures nodes.Keys == old(nodes).Keys + {node.id}
      ensures forall n | n in old(nodes) :: SameLinks(nodes[n], old(nodes)[n]) && nodes[n].id == old(nodes)[n].id
      ensures node.id !in old(nodes) ==> nodes == old(nodes)[node.id := node]
      ensures forall n | n in old(nodes) && n != node.id :: nodes[n] == old(nodes)[n]
      ensures node.id in old(nodes) ==>
                var known := old(nodes)[node.id].modified;
                nodes[node.id].modified == if known < node.modified then node.modified else known
      ensures issues == old(issues) +
              if node.id in old(nodes) && !SameLinks(old(nodes)[node.id], node) then {node.id} else {}
    {
      if node.id in nodes {
        var existing := nodes[node.id];
        if !SameLinks(existing, node) {
          issues := issues + {node.id};
        }
        if node.modified > existing.modified {
          nodes := nodes[node.id := existing.(modified := node.modified)];
        }
      } else {
        nodes := nodes[node.id := node];
      }
    }

    /** One file: what it makes suspect, and its node. */
    method ReadFile(rollout: Rollout)
      modifies this
      ensures State() == Added(old(State()), rollout)
    {
      match rollout {
        case Parsed(node, fileId) =>
          if fileId.Some? && fileId.value != node.id {
            issues := issues + {fileId.value, node.id};
          }
          if node.parent.Some? && node.fork.Some? && node.parent != node.fork {
            issues := issues + {node.id};
          }
          InsertNode(node);
        case Malformed(fileId) =>
          if fileId.Some? {
            issues := issues + {fileId.value};
          }
        case Bare(fileId, modified) =>
          if fileId.Some? {
            InsertNode(Node(fileId.value, None, None, None, modified));
          }
      }
    }

    /** Discovery finds exactly the nodes and the issues of the files it reads. */
    method Discover(rollouts: seq<Rollout>)
      requires State() == Cat(map[], {})
      modifies this
      ensures Discovered(rollouts, State()) && Flagged(State())
    {
      hide NodesFound, Suspect, Added, Flagged, Discovered;
      NothingDiscovered();
      for i := 0 to |rollouts|
        invariant Discovered(rollouts[..i], State())
      {
        ghost var before := State();
        ReadFile(rollouts[i]);
        assert rollouts[..i + 1] == rollouts[..i] + [rollouts[i]];
        OneMoreFile(rollouts[..i], rollouts[i], before);
      }
      assert rollouts[..|rollouts|] == rollouts;
      DiscoveryFlags(rollouts, State());
    }
  }

  // ---------------------------------------------------------------- root resolution

  function ResolveSession(c: Cat, id: Id, session: Id, visiting: set<Id>): Result<Id, Failure>
    requires id in c.nodes && id !in visiting
    decreases c.nodes.Keys - visiting, 0
  {
    assert c.nodes.Keys - (visiting + {id}) < c.nodes.Keys - visiting by {
      assert id in c.nodes.Keys - visiting;
    }
    if session == id then Ok(id)
    else if session in c.nodes then
      match ResolveRoot(c, session, visiting + {id})
      case Err(e) => Err(e)
      case Ok(resolved) => if resolved != session then Err(NotRoot) else Ok(session)
    else if session in c.issues then Err(Issue)
    else Ok(session)
  }

  /** The canonical root of a rollout, searched with the set of ids on the current path. */
  function ResolveRoot(c: Cat, id: Id, visiting: set<Id>): Result<Id, Failure>
    decreases c.nodes.Keys - visiting, 1
  {
    if id in c.issues then Err(Issue)
    else if id !in c.nodes then Ok(id)
    else if id in visiting then Err(Cycle)
    else
      assert c.nodes.Keys - (visiting + {id}) < c.nodes.Keys - visiting by {
        assert id in c.nodes.Keys - visiting;
      }
      var node := c.nodes[id];
      var parent := ParentId(node);
      match node.session
      case Some(session) =>
        var authoritative := ResolveSession(c, id, session, visiting);
        if authoritative.Err? || parent.None? then authoritative
        else (
          match ResolveRoot(c, parent.value, visiting + {id})
          case Err(e) => Err(e)
          case Ok(root) => if root != authoritative.value then Err(Conflict) else authoritative)
      case None =>
        if parent.Some? then ResolveRoot(c, parent.value, visiting + {id}) else Ok(id)
  }

  function CanonicalRoot(c: Cat, id: Id): Result<Id, Failure> {
    ResolveRoot(c, id, {})
  }

  /** The search as it runs, pushing and popping ids on one shared visiting set. */
  class RootSearch {
    var visiting: set<Id>

    constructor ()
      ensures visiting == {}
    {
      visiting := {};
    }

    method Resolve(c: Cat, id: Id) returns (result: Result<Id, Failure>)
      modifies this
      ensures result == ResolveRoot(c, id, old(visiting))
      ensures result.Ok? ==> visiting == old(visiting)
      decreases c.nodes.Keys - visiting
    {
      if id in c.issues {
        return Err(Issue);
      }
      if id !in c.nodes {
        return Ok(id);
      }
      if id in visiting {
        return Err(Cycle);
      }
      ghost var path := visiting;
      assert id in c.nodes.Keys - path;
      visiting := visiting + {id};
      var node := c.nodes[id];
      var parent := ParentId(node);
      var root := id;
      if node.session.Some? {
        var session := node.session.value;
        if session != id && session in c.nodes {
          var resolved := Resolve(c, session);
          if resolved.Err? {
            return resolved;
          }
          if resolved.value != session {
            return Err(NotRoot);
          }
        } else if session != id && session in c.issues {
          return Err(Issue);
        }
        root := session;
        if parent.Some? {
          var parentRoot := Resolve(c, parent.value);
          if parentRoot.Err? {
            return parentRoot;
          }
          if parentRoot.value != root {
            return Err(Conflict);
          }
        }
      } else if parent.Some? {
        var parentRoot := Resolve(c, parent.value);
        if parentRoot.Err? {
          return parentRoot;
        }
        root := parentRoot.value;
      }
      visiting := visiting - {id};
      assert visiting == path;
      result := Ok(root);
    }
  }
}
