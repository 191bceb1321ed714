// Exactly when the reducer accepts each event and exactly what it changes, in terms of the state before it
// (packages/ledger/src/reducer.ts:117-222, graph.ts:90-147).
module Acceptance {
  import opened Common
  import opened Core
  import opened Decimals
  import opened Ledger
  import opened Charges
  import opened LedgerInvariant
  import opened LedgerReserve
  import opened Lineages
  import LS = LedgerSafety

  predicate InTime(s: State, at: int) {
    s.lastAt.Some? ==> s.lastAt.value <= at
  }

  // ---- Registering a policy ----------------------------------------------------------------------

  // Every dimension of the next policy is one of the previous policy's, its limit aside.
  ghost predicate NothingNew(previous: seq<Term>, next: seq<Term>) {
    forall d :: DimensionTerm(d) in next ==> exists p :: DimensionTerm(p) in previous && SameButLimit(p, d)
  }

  predicate SameButLimit(p: Dimension, d: Dimension) {
    && p.dimensionId == d.dimensionId && p.accounting == d.accounting && p.restoration == d.restoration && p.epoch == d.epoch
    && p.sign == d.sign && p.scope == d.scope
    && p.limit.kind == d.limit.kind && p.limit.unit == d.limit.unit && p.limit.decimals == d.limit.decimals
  }

  lemma NothingNewIs(previous: Policy, next: Policy)
    ensures KeepsDimensions(previous, next) <==> NothingNew(previous.terms, next.terms)
  {
    forall d ensures d in DimensionsOf(next.terms) <==> DimensionTerm(d) in next.terms {
      DimensionsAreTerms(next.terms, d);
    }
    forall d ensures d in DimensionsOf(previous.terms) <==> DimensionTerm(d) in previous.terms {
      DimensionsAreTerms(previous.terms, d);
    }
    forall p, d ensures DimensionIdentity(p) == DimensionIdentity(d) <==> SameButLimit(p, d) {
      IdentityIs(p, d);
    }
    hide DimensionIdentity, SameButLimit, DimensionsOf;
    if NothingNew(previous.terms, next.terms) {
      forall d | d in DimensionsOf(next.terms)
        ensures exists p :: p in DimensionsOf(previous.terms) && DimensionIdentity(p) == DimensionIdentity(d)
      {
        var p :| DimensionTerm(p) in previous.terms && SameButLimit(p, d);
        assert p in DimensionsOf(previous.terms);
      }
    }
  }

  lemma IdentityIs(p: Dimension, d: Dimension)
    ensures DimensionIdentity(p) == DimensionIdentity(d) <==> SameButLimit(p, d)
  {
    if SameButLimit(p, d) {
      assert DimensionIdentity(p) == p.(limit := d.limit.(atoms := 0));
    }
  }

  ghost predicate PolicyAcceptable(s: State, policy: Policy, semantics: Semantics, rules: Rules) {
    && policy.principal == s.principal
    && (s.policy.Some? ==> s.policy.value.policy.sequence < policy.sequence)
    && rules.policySemantics(policy, semantics)
    && (s.policy.Some? && s.everReserved ==>
          NothingNew(s.policy.value.policy.terms, policy.terms) && rules.policyInvariants(s.policy.value, policy, semantics))
  }

  ghost predicate DimensionOf(terms: seq<Term>, identity: Dimension, d: Dimension) {
    DimensionTerm(d) in terms && DimensionIdentity(d) == identity
  }

  ghost predicate Retires(s: State, identity: Dimension) {
    s.policy.Some? && exists d :: DimensionOf(s.policy.value.policy.terms, identity, d)
  }

  // A target after a policy is registered: granted ones untouched; the policy's own current, with its limit and with the
  // numbers they had; those of the policy before, when it names them no more, kept but no longer current.
  ghost predicate TargetAfterPolicy(s: State, t: State, policy: Policy, key: TargetKey) {
    match key
    case NodeKey(_, _) => (key in t.targets <==> key in s.targets) && (key in s.targets ==> t.targets[key] == s.targets[key])
    case GlobalKey(identity) =>
      if exists d :: DimensionOf(policy.terms, identity, d) then
        && key in t.targets && DimensionOf(policy.terms, identity, t.targets[key].dimension)
        && t.targets[key].ref == PolicyRef(PolicyId(policy), t.targets[key].dimension.dimensionId) && t.targets[key].current
        && (if key in s.targets then SameNumbers(s.targets[key], t.targets[key]) && t.targets[key].source == s.targets[key].source
            else Untouched(t.targets[key]) && t.targets[key].source.FromPolicy?)
      else
        && (key in t.targets <==> key in s.targets)
        && (key in s.targets ==> t.targets[key] == s.targets[key].(current := s.targets[key].current && !Retires(s, identity)))
  }

  lemma {:induction false} RetiredIs(targets: map<TargetKey, Balance>, dims: seq<Dimension>, key: TargetKey)
    ensures var out := RetireDimensions(targets, dims);
            && (key in out <==> key in targets)
            && (key in targets ==> out[key] == targets[key].(current := targets[key].current
                  && !(key.GlobalKey? && exists d :: d in dims && DimensionIdentity(d) == key.identity)))
    decreases |dims|
  {
    hide DimensionIdentity;
    if dims != [] {
      var k := GlobalKey(DimensionIdentity(dims[0]));
      RetiredIs(if k in targets then targets[k := targets[k].(current := false)] else targets, dims[1..], key);
      assert forall d :: d in dims <==> d == dims[0] || d in dims[1..];
    }
  }

  lemma {:induction false} InstalledIs(targets: map<TargetKey, Balance>, dims: seq<Dimension>, id: PolicyId, key: TargetKey)
    requires forall d, x :: d in dims && x in dims && DimensionIdentity(d) == DimensionIdentity(x) ==> d == x
    ensures var out := InstallDimensions(targets, dims, id);
            if key.GlobalKey? && exists d :: d in dims && DimensionIdentity(d) == key.identity then
              && key in out && out[key].dimension in dims && DimensionIdentity(out[key].dimension) == key.identity
              && out[key].ref == PolicyRef(id, out[key].dimension.dimensionId) && out[key].current
              && (if key in targets then SameNumbers(targets[key], out[key]) && out[key].source == targets[key].source
                  else Untouched(out[key]) && out[key].source.FromPolicy?)
            else (key in out <==> key in targets) && (key in targets ==> out[key] == targets[key])
    decreases |dims|
  {
    hide DimensionIdentity;
    if dims != [] {
      var d := dims[0];
      var k := GlobalKey(DimensionIdentity(d));
      var ref := PolicyRef(id, d.dimensionId);
      var b := if k in targets then targets[k].(ref := ref, dimension := d, current := true) else ZeroBalance(ref, FromPolicy, d);
      assert forall x :: x in dims <==> x == d || x in dims[1..];
      InstalledIs(targets[k := b], dims[1..], id, key);
    }
  }

  lemma PolicyDimensionsDiffer(terms: seq<Term>)
    requires DistinctKeys(terms)
    ensures forall d, x :: d in DimensionsOf(terms) && x in DimensionsOf(terms) && DimensionIdentity(d) == DimensionIdentity(x) ==> d == x
  {
    forall d, x | d in DimensionsOf(terms) && x in DimensionsOf(terms) && DimensionIdentity(d) == DimensionIdentity(x) ensures d == x {
      assert DimensionIdentity(d).dimensionId == DimensionIdentity(x).dimensionId;
      DimensionUnique(terms, d, x);
    }
  }

  // A policy is registered exactly when it is the principal's, newer than the last, accepted by the rules and, once
  // anything was reserved, brings no new dimension; and it changes only the policy and the principal-wide targets.
  lemma PolicyExactly(s: State, at: int, policy: Policy, semantics: Semantics, version: nat, rules: Rules)
    requires ValidTerms(policy.terms)
    ensures ApplyEvent(s, RegisterPolicy(at, policy, semantics), version, rules).Ok? <==> InTime(s, at) && PolicyAcceptable(s, policy, semantics, rules)
    ensures ApplyEvent(s, RegisterPolicy(at, policy, semantics), version, rules).Ok? ==>
              var t := ApplyEvent(s, RegisterPolicy(at, policy, semantics), version, rules).value;
              && t == s.(policy := Some(PolicyRecord(PolicyId(policy), policy, semantics, version)), targets := t.targets, lastAt := Some(at))
              && forall key :: TargetAfterPolicy(s, t, policy, key)
  {
    hide RetireDimensions, InstallDimensions, ValidTerms, TargetAfterPolicy, NothingNew, KeepsDimensions;
    if s.policy.Some? {
      NothingNewIs(s.policy.value.policy, policy);
    }
    var r := ApplyEvent(s, RegisterPolicy(at, policy, semantics), version, rules);
    if r.Ok? {
      forall key ensures TargetAfterPolicy(s, r.value, policy, key) {
        PolicyTarget(s, r.value, policy, key);
      }
    }
  }

  lemma PolicyTarget(s: State, t: State, policy: Policy, key: TargetKey)
    requires ValidTerms(policy.terms)
    requires t.targets == InstallDimensions(
               if s.policy.Some? then RetireDimensions(s.targets, DimensionsOf(s.policy.value.policy.terms)) else s.targets,
               DimensionsOf(policy.terms), PolicyId(policy))
    ensures TargetAfterPolicy(s, t, policy, key)
  {
    hide DimensionIdentity, DimensionsOf, RetireDimensions, InstallDimensions, ValidDimension;
    var retired := if s.policy.Some? then RetireDimensions(s.targets, DimensionsOf(s.policy.value.policy.terms)) else s.targets;
    if s.policy.Some? {
      RetiredIs(s.targets, DimensionsOf(s.policy.value.policy.terms), key);
      forall d ensures d in DimensionsOf(s.policy.value.policy.terms) <==> DimensionTerm(d) in s.policy.value.policy.terms {
        DimensionsAreTerms(s.policy.value.policy.terms, d);
      }
    }
    forall d ensures d in DimensionsOf(policy.terms) <==> DimensionTerm(d) in policy.terms {
      DimensionsAreTerms(policy.terms, d);
    }
    if key.GlobalKey? {
      assert (exists d :: DimensionOf(policy.terms, key.identity, d)) <==>
             exists d :: d in DimensionsOf(policy.terms) && DimensionIdentity(d) == key.identity by {
        if d :| d in DimensionsOf(policy.terms) && DimensionIdentity(d) == key.identity {
          assert DimensionOf(policy.terms, key.identity, d);
        }
      }
      if s.policy.Some? {
        var terms := s.policy.value.policy.terms;
        assert Retires(s, key.identity) <==> exists d :: d in DimensionsOf(terms) && DimensionIdentity(d) == key.identity by {
          if d :| d in DimensionsOf(terms) && DimensionIdentity(d) == key.identity {
            assert DimensionOf(terms, key.identity, d);
          }
        }
      }
    }
    PolicyDimensionsDiffer(policy.terms);
    InstalledIs(retired, DimensionsOf(policy.terms), PolicyId(policy), key);
  }

  // ---- Registering a grant -----------------------------------------------------------------------

  predicate NoDeeper(terms: seq<Term>, path: seq<NodeRecord>) {
    forall k, i :: 0 <= k < |terms| && 0 <= i < |path| && terms[k].RightTerm? && terms[k].right.DELEGATE? ==>
      DelegatesTo(path[i].grant.terms, terms[k].right.maxDepth + 1 + i)
  }

  // A child of the first grant of a path: issued by its holder, no deeper than every grant above allows, within its window.
  predicate Narrows(path: seq<NodeRecord>, g: Grant<AuthorityId>, semantics: Semantics, rules: Rules)
    requires path != []
  {
    && g.lineage == DELEGATION(path[0].id, path[0].grant.holder)
    && (forall i :: 0 <= i < |path| ==> DelegatesTo(path[i].grant.terms, 1 + i))
    && NoDeeper(g.terms, path)
    && path[0].grant.notBefore <= g.notBefore && g.expiresAt <= path[0].grant.expiresAt
    && rules.narrows(path[0].grant, g, semantics)
  }

  function ParentOf(s: State, g: Grant<AuthorityId>): Option<NodeRecord> {
    if g.lineage.DELEGATION? && g.lineage.parent in s.nodes then Some(s.nodes[g.lineage.parent]) else None
  }

  ghost predicate GrantAcceptable(s: State, g: Grant<AuthorityId>, semantics: Semantics, at: int, rules: Rules) {
    && g.principal == s.principal && s.policy.Some? && AuthorityId(g) !in s.nodes && at < g.expiresAt
    && rules.grantSemantics(ParentOf(s, g), g, semantics)
    && (g.lineage.DELEGATION? ==> exists path :: Usable(s, g.lineage.parent, path, at) && Narrows(path, g, semantics, rules))
  }

  lemma ChildDepth(terms: seq<Term>, path: seq<NodeRecord>)
    requires DistinctKeys(terms) && path != [] && KeyedTerms(path) && EffectiveDepth(path) >= 1
    ensures DelegateDepth(terms) <= EffectiveDepth(path) - 1 <==> NoDeeper(terms, path)
  {
    hide DelegatesTo, EffectiveDepth, DelegateDepth, DistinctKeys;
    if DelegateDepth(terms) <= EffectiveDepth(path) - 1 {
      forall k, i | 0 <= k < |terms| && 0 <= i < |path| && terms[k].RightTerm? && terms[k].right.DELEGATE?
        ensures DelegatesTo(path[i].grant.terms, terms[k].right.maxDepth + 1 + i)
      {
        OwnDepth(terms, k);
        DepthLeftIs(path, terms[k].right.maxDepth + 1);
      }
    } else {
      var k := DepthTerm(terms);
      DepthLeftIs(path, terms[k].right.maxDepth + 1);
    }
  }

  lemma OwnDepth(terms: seq<Term>, k: nat)
    requires DistinctKeys(terms) && k < |terms| && terms[k].RightTerm? && terms[k].right.DELEGATE?
    ensures DelegateDepth(terms) >= terms[k].right.maxDepth
  {
    if terms[k].right.maxDepth > 0 {
      assert DelegatesTo(terms, terms[k].right.maxDepth);
      DepthIs(terms, terms[k].right.maxDepth);
    }
  }

  lemma {:induction false} DepthTerm(terms: seq<Term>) returns (k: nat)
    requires DelegateDepth(terms) > 0
    ensures k < |terms| && terms[k].RightTerm? && terms[k].right.DELEGATE? && terms[k].right.maxDepth == DelegateDepth(terms)
    decreases |terms|
  {
    if terms[0].RightTerm? && terms[0].right.DELEGATE? {
      k := 0;
    } else {
      k := DepthTerm(terms[1..]);
      assert terms[1..][k] == terms[k + 1];
      k := k + 1;
    }
  }

  // The subset rules pass exactly when the child narrows its parent.
  lemma DelegationExactly(s: State, g: Grant<AuthorityId>, semantics: Semantics, at: int, rules: Rules, path: seq<NodeRecord>)
    requires NodesOk(s.principal, s.nodes, s.targets) && ValidGrant(g) && g.principal == s.principal && g.lineage.DELEGATION?
    requires Usable(s, g.lineage.parent, path, at)
    ensures CheckDelegation(path, g, g.lineage.issuer, semantics, rules).Ok? <==> Narrows(path, g, semantics, rules)
    ensures CheckDelegation(path, g, g.lineage.issuer, semantics, rules).Ok? ==>
              CheckDelegation(path, g, g.lineage.issuer, semantics, rules).value == path[0].depth + 1
  {
    hide ResolveLineage, LineageRefusal, NodesRefusal, ValidTerms, DelegatesTo;
    PathGrants(s, g.lineage.parent, path);
    UsableIs(s, g.lineage.parent, path, at);
    assert Live(s.principal, path[0], at);
    DepthLeftIs(path, 1);
    if EffectiveDepth(path) >= 1 {
      LS.LengthBoundUnreachable(s, path, at);
      assert DistinctKeys(g.terms) by {
        ValidKeys(g.terms);
      }
      ChildDepth(g.terms, path);
    }
  }

  lemma ValidKeys(terms: seq<Term>)
    requires ValidTerms(terms)
    ensures DistinctKeys(terms)
  {
  }

  lemma PathGrants(s: State, leaf: AuthorityId, path: seq<NodeRecord>)
    requires NodesOk(s.principal, s.nodes, s.targets) && PathFrom(s.nodes, leaf, path)
    ensures KeyedTerms(path) && forall i :: 0 <= i < |path| ==> ValidGrant(path[i].grant)
  {
    hide ValidDimension;
    forall i | 0 <= i < |path| ensures ValidGrant(path[i].grant) && DistinctKeys(path[i].grant.terms) {
      assert s.nodes[path[i].id].grant == path[i].id.preimage && ValidGrant(path[i].id.preimage);
    }
  }

  function DepthOf(s: State, g: Grant<AuthorityId>): nat {
    if g.lineage.DELEGATION? && g.lineage.parent in s.nodes then s.nodes[g.lineage.parent].depth + 1 else 0
  }

  // A target after a grant is registered: one from zero for each of its dimensions, every other as it was.
  ghost predicate TargetAfterGrant(s: State, t: State, g: Grant<AuthorityId>, key: TargetKey) {
    if key.NodeKey? && key.authority == AuthorityId(g) && exists d :: DimensionTerm(d) in g.terms && d.dimensionId == key.dimensionId then
      && key in t.targets && DimensionTerm(t.targets[key].dimension) in g.terms
      && t.targets[key] == ZeroBalance(NodeRef(AuthorityId(g), key.dimensionId), FromGrant, t.targets[key].dimension)
    else (key in t.targets <==> key in s.targets) && (key in s.targets ==> t.targets[key] == s.targets[key])
  }

  lemma {:induction false} NodeInstalledIs(targets: map<TargetKey, Balance>, dims: seq<Dimension>, id: AuthorityId, key: TargetKey)
    requires forall d, x :: d in dims && x in dims && x.dimensionId == d.dimensionId ==> x == d
    ensures var out := InstallNode(targets, dims, id);
            if key.NodeKey? && key.authority == id && exists d :: d in dims && d.dimensionId == key.dimensionId
            then key in out && out[key].dimension in dims && out[key] == ZeroBalance(NodeRef(id, key.dimensionId), FromGrant, out[key].dimension)
            else (key in out <==> key in targets) && (key in targets ==> out[key] == targets[key])
    decreases |dims|
  {
    if dims != [] {
      var d := dims[0];
      var b := ZeroBalance(NodeRef(id, d.dimensionId), FromGrant, d);
      assert forall x :: x in dims <==> x == d || x in dims[1..];
      NodeInstalledIs(targets[NodeKey(id, d.dimensionId) := b], dims[1..], id, key);
    }
  }

  // A grant is registered exactly when it is the principal's, new, not over, accepted by the rules and, if delegated,
  // narrows a parent usable at that time; and it adds one node and its targets.
  lemma GrantExactly(s: State, at: int, g: Grant<AuthorityId>, semantics: Semantics, version: nat, rules: Rules)
    requires NodesOk(s.principal, s.nodes, s.targets) && ValidGrant(g)
    ensures ApplyEvent(s, RegisterGrant(at, g, semantics), version, rules).Ok? <==> InTime(s, at) && GrantAcceptable(s, g, semantics, at, rules)
    ensures ApplyEvent(s, RegisterGrant(at, g, semantics), version, rules).Ok? ==>
              var t := ApplyEvent(s, RegisterGrant(at, g, semantics), version, rules).value;
              && t == s.(nodes := s.nodes[AuthorityId(g) := NodeRecord(AuthorityId(g), g, DepthOf(s, g), semantics, version, None, None)],
                         targets := t.targets, lastAt := Some(at))
              && forall key :: TargetAfterGrant(s, t, g, key)
  {
    hide ResolveLineage, LineageRefusal, CheckDelegation, InstallNode, NodesOk, Usable, Narrows, ValidGrant, TargetAfterGrant;
    if g.lineage.DELEGATION? && g.principal == s.principal {
      ParentExactly(s, g, semantics, at, rules);
    }
    var r := ApplyEvent(s, RegisterGrant(at, g, semantics), version, rules);
    if r.Ok? {
      forall key ensures TargetAfterGrant(s, r.value, g, key) {
        GrantTarget(s, r.value, g, key);
      }
    }
  }

  // What is checked of a parent, as one condition on its path.
  lemma ParentExactly(s: State, g: Grant<AuthorityId>, semantics: Semantics, at: int, rules: Rules)
    requires NodesOk(s.principal, s.nodes, s.targets) && ValidGrant(g) && g.principal == s.principal && g.lineage.DELEGATION?
    ensures var found := ResolveLineage(s.nodes, g.lineage.parent, MAX_LINEAGE_LENGTH);
            var ok := found.Ok? && LineageRefusal(s, found.value, at).None? && CheckDelegation(found.value, g, g.lineage.issuer, semantics, rules).Ok?;
            && (ok <==> exists path :: Usable(s, g.lineage.parent, path, at) && Narrows(path, g, semantics, rules))
            && (ok ==> g.lineage.parent in s.nodes
                       && CheckDelegation(found.value, g, g.lineage.issuer, semantics, rules).value == s.nodes[g.lineage.parent].depth + 1)
  {
    hide LineageRefusal, CheckDelegation, NodesOk, Narrows, ValidGrant, ValidPath, ResolveLineage;
    var found := ResolveLineage(s.nodes, g.lineage.parent, MAX_LINEAGE_LENGTH);
    forall path ensures Usable(s, g.lineage.parent, path, at) <==> found == Ok(path) && LineageRefusal(s, path, at).None? {
      UsableIs(s, g.lineage.parent, path, at);
    }
    if found.Ok? && LineageRefusal(s, found.value, at).None? {
      DelegationExactly(s, g, semantics, at, rules, found.value);
    }
  }

  lemma GrantTarget(s: State, t: State, g: Grant<AuthorityId>, key: TargetKey)
    requires ValidGrant(g) && t.targets == InstallNode(s.targets, DimensionsOf(g.terms), AuthorityId(g))
    ensures TargetAfterGrant(s, t, g, key)
  {
    hide InstallNode, DimensionsOf, ValidDimension;
    UniqueDimensions(g.terms);
    forall d ensures d in DimensionsOf(g.terms) <==> DimensionTerm(d) in g.terms {
      DimensionsAreTerms(g.terms, d);
    }
    NodeInstalledIs(s.targets, DimensionsOf(g.terms), AuthorityId(g), key);
  }

  // ---- Revoking ----------------------------------------------------------------------------------

  // A path none of whose grants is revoked, and one of whose grants the revoker issued.
  predicate Revocable(path: seq<NodeRecord>, r: Revocation, at: int) {
    && r.effectiveAt <= at
    && (forall i :: 0 <= i < |path| ==> path[i].revokedAt.None?)
    && exists i :: 0 <= i < |path| && path[i].grant.lineage.issuer == r.issuer
  }

  // A grant is revoked exactly when it is effective now, is not revoked already, itself or above, and the revoker issued it
  // or one above it; and it changes that node alone.
  lemma RevokeExactly(s: State, at: int, r: Revocation, version: nat, rules: Rules)
    requires NodesOk(s.principal, s.nodes, s.targets)
    ensures ApplyEvent(s, Revoke(at, r), version, rules).Ok? <==>
              && InTime(s, at)
              && exists path :: PathFrom(s.nodes, r.target, path) && |path| <= MAX_LINEAGE_LENGTH && Revocable(path, r, at)
    ensures ApplyEvent(s, Revoke(at, r), version, rules).Ok? ==>
              && r.target in s.nodes
              && ApplyEvent(s, Revoke(at, r), version, rules).value
                 == s.(nodes := s.nodes[r.target := s.nodes[r.target].(revokedAt := Some(version), revocation := Some(r))], lastAt := Some(at))
  {
    hide ResolveLineage, NodesOk;
    forall path
      ensures PathFrom(s.nodes, r.target, path) && |path| <= MAX_LINEAGE_LENGTH <==> ResolveLineage(s.nodes, r.target, MAX_LINEAGE_LENGTH) == Ok(path)
    {
      ResolvesExactly(s.principal, s.nodes, s.targets, r.target, MAX_LINEAGE_LENGTH, path);
    }
    var found := ResolveLineage(s.nodes, r.target, MAX_LINEAGE_LENGTH);
    if found.Ok? {
      assert PathFrom(s.nodes, r.target, found.value);
      assert found.value[0].id in s.nodes;
    }
    hide PathFrom;
  }
}
