// Which grants may be used, over the nodes of the ledger: valid paths to the root, and what a revocation ends
// (packages/ledger/src/graph.ts:27-88).
module Lineages {
  import opened Common
  import opened Core
  import opened Ledger
  import opened LedgerInvariant
  import opened LedgerReserve
  import LS = LedgerSafety

  // ---- Paths -----------------------------------------------------------------------------------

  predicate NamesParent(child: NodeRecord, parent: NodeRecord) {
    child.grant.lineage.DELEGATION? && child.grant.lineage.parent == parent.id
  }

  // The registered nodes from a grant up to its root, each the parent the one before it names.
  predicate PathFrom(nodes: map<AuthorityId, NodeRecord>, leaf: AuthorityId, path: seq<NodeRecord>) {
    && path != [] && path[0].id == leaf
    && (forall i :: 0 <= i < |path| ==> path[i].id in nodes && nodes[path[i].id] == path[i])
    && (forall i :: 0 <= i < |path| - 1 ==> NamesParent(path[i], path[i + 1]))
    && path[|path| - 1].grant.lineage.ROOT?
  }

  lemma PathTail(nodes: map<AuthorityId, NodeRecord>, leaf: AuthorityId, path: seq<NodeRecord>)
    requires PathFrom(nodes, leaf, path) && path[0].grant.lineage.DELEGATION?
    ensures |path| > 1 && PathFrom(nodes, path[0].grant.lineage.parent, path[1..])
  {
    var rest := path[1..];
    assert forall i :: 0 <= i < |rest| ==> rest[i] == path[i + 1];
    assert NamesParent(path[0], path[1]);
  }

  lemma PathCons(nodes: map<AuthorityId, NodeRecord>, node: NodeRecord, rest: seq<NodeRecord>)
    requires node.id in nodes && nodes[node.id] == node && node.grant.lineage.DELEGATION?
    requires PathFrom(nodes, node.grant.lineage.parent, rest)
    ensures PathFrom(nodes, node.id, [node] + rest)
  {
    var path := [node] + rest;
    assert forall i :: 0 < i < |path| ==> path[i] == rest[i - 1];
    forall i | 0 <= i < |path| - 1 ensures NamesParent(path[i], path[i + 1]) {
      assert i > 0 ==> NamesParent(rest[i - 1], rest[i]);
    }
  }

  // Resolving a grant finds exactly its path, when there is one within the bound.
  lemma {:induction false} ResolvesExactly(principal: Party, nodes: map<AuthorityId, NodeRecord>, targets: map<TargetKey, Balance>,
                                           leaf: AuthorityId, room: nat, path: seq<NodeRecord>)
    requires NodesOk(principal, nodes, targets)
    ensures ResolveLineage(nodes, leaf, room) == Ok(path) <==> PathFrom(nodes, leaf, path) && |path| <= room
    decreases room
  {
    if room > 0 && leaf in nodes {
      var node := nodes[leaf];
      if node.grant.lineage.DELEGATION? {
        var parent := node.grant.lineage.parent;
        if PathFrom(nodes, leaf, path) {
          PathTail(nodes, leaf, path);
          ResolvesExactly(principal, nodes, targets, parent, room - 1, path[1..]);
          assert path == [node] + path[1..];
        }
        if ResolveLineage(nodes, leaf, room) == Ok(path) {
          var rest := ResolveLineage(nodes, parent, room - 1).value;
          ResolvesExactly(principal, nodes, targets, parent, room - 1, rest);
          PathCons(nodes, node, rest);
        }
      } else if PathFrom(nodes, leaf, path) {
        assert |path| > 1 ==> NamesParent(path[0], path[1]);
        assert path == [node];
      }
    }
  }

  // ---- Validity, node by node ------------------------------------------------------------------

  // A grant of this principal, not revoked, inside its window.
  predicate Live(principal: Party, node: NodeRecord, at: int) {
    node.grant.principal == principal && node.revokedAt.None? && node.grant.notBefore <= at < node.grant.expiresAt
  }

  // The grant carries a right to delegate at least `steps` deep.
  predicate DelegatesTo(terms: seq<Term>, steps: int) {
    exists i :: 0 <= i < |terms| && terms[i].RightTerm? && terms[i].right.DELEGATE? && terms[i].right.maxDepth >= steps
  }

  // The child was issued by its parent's holder.
  predicate Issued(child: NodeRecord, parent: NodeRecord) {
    child.grant.lineage == DELEGATION(parent.id, parent.grant.holder)
  }

  // Every node is live, each is issued by the holder of the next, the last is the principal's own root, and every
  // ancestor may delegate as many steps as it is away.
  predicate ValidPath(principal: Party, path: seq<NodeRecord>, at: int) {
    && (forall i :: 0 <= i < |path| ==> Live(principal, path[i], at))
    && (forall i :: 0 <= i < |path| - 1 ==> Issued(path[i], path[i + 1]))
    && (path != [] ==> path[|path| - 1].grant.lineage == ROOT(principal))
    && forall i :: 0 < i < |path| ==> DelegatesTo(path[i].grant.terms, i)
  }

  predicate KeyedTerms(path: seq<NodeRecord>) {
    forall i :: 0 <= i < |path| ==> DistinctKeys(path[i].grant.terms)
  }

  // A grant has one right to delegate at most, and its depth is the one that is read.
  lemma {:induction false} DepthIs(terms: seq<Term>, steps: int)
    requires DistinctKeys(terms) && steps > 0
    ensures DelegateDepth(terms) >= steps <==> DelegatesTo(terms, steps)
    decreases |terms|
  {
    if terms != [] {
      var rest := terms[1..];
      assert forall i :: 0 <= i < |rest| ==> rest[i] == terms[i + 1];
      if terms[0].RightTerm? && terms[0].right.DELEGATE? {
        forall i | 0 < i < |terms| && terms[i].RightTerm? ensures !terms[i].right.DELEGATE? {
          assert KeyOf(terms[0]) != KeyOf(terms[i]);
        }
      } else {
        DepthIs(rest, steps);
        if DelegatesTo(rest, steps) {
          var i :| 0 <= i < |rest| && rest[i].RightTerm? && rest[i].right.DELEGATE? && rest[i].right.maxDepth >= steps;
          assert terms[i + 1] == rest[i];
        }
        if DelegatesTo(terms, steps) {
          var i :| 0 <= i < |terms| && terms[i].RightTerm? && terms[i].right.DELEGATE? && terms[i].right.maxDepth >= steps;
          assert rest[i - 1] == terms[i];
        }
      }
    }
  }

  // The depth left at the first node: every node on the path may delegate that many steps beyond its own distance.
  lemma {:induction false} DepthLeftIs(path: seq<NodeRecord>, steps: nat)
    requires path != [] && KeyedTerms(path) && steps > 0
    ensures EffectiveDepth(path) >= steps <==> forall i :: 0 <= i < |path| ==> DelegatesTo(path[i].grant.terms, steps + i)
    decreases |path|
  {
    DepthIs(path[0].grant.terms, steps);
    if |path| > 1 {
      var rest := path[1..];
      assert forall i :: 0 <= i < |rest| ==> rest[i] == path[i + 1];
      DepthLeftIs(rest, steps + 1);
      if EffectiveDepth(path) >= steps {
        forall i | 0 <= i < |path| ensures DelegatesTo(path[i].grant.terms, steps + i) {
          if i > 0 {
            assert DelegatesTo(rest[i - 1].grant.terms, steps + 1 + (i - 1));
          }
        }
      }
      if forall i :: 0 <= i < |path| ==> DelegatesTo(path[i].grant.terms, steps + i) {
        assert DelegatesTo(path[0].grant.terms, steps + 0);
        forall i | 0 <= i < |rest| ensures DelegatesTo(rest[i].grant.terms, steps + 1 + i) {
          assert DelegatesTo(path[i + 1].grant.terms, steps + (i + 1));
        }
      }
    } else if EffectiveDepth(path) >= steps {
      forall i | 0 <= i < |path| ensures DelegatesTo(path[i].grant.terms, steps + i) {
      }
    } else {
      assert !DelegatesTo(path[0].grant.terms, steps + 0);
    }
  }

  lemma DeepTail(path: seq<NodeRecord>)
    requires |path| > 1 && forall i :: 0 <= i < |path[1..]| ==> DelegatesTo(path[1..][i].grant.terms, 1 + i)
    ensures forall i :: 0 < i < |path| ==> DelegatesTo(path[i].grant.terms, i)
    ensures forall i :: 0 < i < |path[1..]| ==> DelegatesTo(path[1..][i].grant.terms, i)
  {
    var rest := path[1..];
    forall i | 0 < i < |path| ensures DelegatesTo(path[i].grant.terms, i) {
      assert DelegatesTo(rest[i - 1].grant.terms, 1 + (i - 1));
    }
    forall i | 0 < i < |rest| ensures DelegatesTo(rest[i].grant.terms, i) {
      assert DelegatesTo(rest[i].grant.terms, 1 + i);
      var k :| 0 <= k < |rest[i].grant.terms| && rest[i].grant.terms[k].RightTerm? && rest[i].grant.terms[k].right.DELEGATE?
               && rest[i].grant.terms[k].right.maxDepth >= 1 + i;
    }
  }

  lemma ValidTail(principal: Party, path: seq<NodeRecord>, at: int)
    requires |path| > 1 && ValidPath(principal, path, at)
    ensures ValidPath(principal, path[1..], at) && Live(principal, path[0], at) && Issued(path[0], path[1])
    ensures forall i :: 0 <= i < |path[1..]| ==> DelegatesTo(path[1..][i].grant.terms, 1 + i)
  {
    hide Live, DelegatesTo, Issued;
    var rest := path[1..];
    assert forall i :: 0 <= i < |rest| ==> rest[i] == path[i + 1];
    forall i | 0 <= i < |rest| ensures DelegatesTo(rest[i].grant.terms, 1 + i) && Live(principal, rest[i], at) {
      assert DelegatesTo(path[i + 1].grant.terms, i + 1) && Live(principal, path[i + 1], at);
    }
    DeepTail(path);
  }

  lemma ValidCons(principal: Party, path: seq<NodeRecord>, at: int)
    requires |path| > 1 && ValidPath(principal, path[1..], at) && Live(principal, path[0], at) && Issued(path[0], path[1])
    requires forall i :: 0 <= i < |path[1..]| ==> DelegatesTo(path[1..][i].grant.terms, 1 + i)
    ensures ValidPath(principal, path, at)
  {
    hide Live, DelegatesTo, Issued;
    var rest := path[1..];
    DeepTail(path);
    forall i | 0 <= i < |path| ensures Live(principal, path[i], at) {
      assert i > 0 ==> Live(principal, rest[i - 1], at);
    }
    forall i | 0 <= i < |path| - 1 ensures Issued(path[i], path[i + 1]) {
      assert i > 0 ==> Issued(rest[i - 1], rest[i]);
    }
  }

  // The check refuses a path exactly when something about some node of it is wrong.
  lemma {:induction false} UsableExactly(principal: Party, path: seq<NodeRecord>, at: int)
    requires KeyedTerms(path)
    ensures NodesRefusal(principal, path, at).None? <==> ValidPath(principal, path, at)
    decreases |path|
  {
    hide DelegatesTo;
    if |path| == 1 {
      OneNode(principal, path, at);
    } else if |path| > 1 {
      var rest := path[1..];
      assert forall i :: 0 <= i < |rest| ==> rest[i] == path[i + 1];
      UsableExactly(principal, rest, at);
      DepthLeftIs(rest, 1);
      if ValidPath(principal, path, at) {
        ValidTail(principal, path, at);
      }
      if NodesRefusal(principal, path, at).None? {
        hide EffectiveDepth;
        ValidCons(principal, path, at);
      }
    }
  }

  lemma OneNode(principal: Party, path: seq<NodeRecord>, at: int)
    requires |path| == 1
    ensures NodesRefusal(principal, path, at).None? <==> ValidPath(principal, path, at)
  {
    assert path[1..] == [];
    assert path == [path[0]];
  }

  // What a ledger lets be done under a grant: exactly when a policy is registered and the grant's path is valid.
  lemma AuthorityExactly(s: State, leaf: AuthorityId, at: int)
    requires NodesOk(s.principal, s.nodes, s.targets)
    ensures (exists path :: ResolveLineage(s.nodes, leaf, MAX_LINEAGE_LENGTH) == Ok(path) && LineageRefusal(s, path, at).None?)
       <==> (exists path :: Usable(s, leaf, path, at))
  {
    hide ResolveLineage, PathFrom, NodesRefusal, ValidPath, NodesOk;
    forall path
      ensures ResolveLineage(s.nodes, leaf, MAX_LINEAGE_LENGTH) == Ok(path) && LineageRefusal(s, path, at).None? <==> Usable(s, leaf, path, at)
    {
      UsableIs(s, leaf, path, at);
    }
  }

  // A path of bounded length from the grant, valid at this time, under a registered policy.
  predicate Usable(s: State, leaf: AuthorityId, path: seq<NodeRecord>, at: int) {
    s.policy.Some? && PathFrom(s.nodes, leaf, path) && |path| <= MAX_LINEAGE_LENGTH && ValidPath(s.principal, path, at)
  }

  lemma UsableIs(s: State, leaf: AuthorityId, path: seq<NodeRecord>, at: int)
    requires NodesOk(s.principal, s.nodes, s.targets)
    ensures ResolveLineage(s.nodes, leaf, MAX_LINEAGE_LENGTH) == Ok(path) && LineageRefusal(s, path, at).None? <==> Usable(s, leaf, path, at)
  {
    hide ResolveLineage, NodesRefusal, ValidPath;
    ResolvesExactly(s.principal, s.nodes, s.targets, leaf, MAX_LINEAGE_LENGTH, path);
    if PathFrom(s.nodes, leaf, path) {
      forall i | 0 <= i < |path| ensures DistinctKeys(path[i].grant.terms) {
        assert s.nodes[path[i].id].grant == path[i].id.preimage && ValidGrant(path[i].id.preimage);
      }
      UsableExactly(s.principal, path, at);
    }
  }
}
