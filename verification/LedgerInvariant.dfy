// What every reachable ledger state satisfies, and that each event keeps it.
module LedgerInvariant {
  import opened Common
  import opened Core
  import opened Decimals
  import opened Ledger
  import opened Charges
  import opened Movement

  // ---- The invariant ---------------------------------------------------------------------------

  ghost predicate NodeTargets(targets: map<TargetKey, Balance>, id: AuthorityId) {
    forall d :: d in DimensionsOf(id.preimage.terms) ==>
      NodeKey(id, d.dimensionId) in targets && targets[NodeKey(id, d.dimensionId)].dimension == d
  }

  ghost predicate NodesOk(principal: Party, nodes: map<AuthorityId, NodeRecord>, targets: map<TargetKey, Balance>) {
    forall id :: id in nodes ==>
      && nodes[id].id == id
      && nodes[id].grant == id.preimage
      && ValidGrant(id.preimage)
      && id.preimage.principal == principal
      && NodeTargets(targets, id)
  }

  ghost predicate TargetOk(nodes: map<AuthorityId, NodeRecord>, key: TargetKey, b: Balance) {
    && ValidDimension(b.dimension)
    && match key
       case NodeKey(id, dimensionId) =>
         id in nodes && b.dimension in DimensionsOf(id.preimage.terms) && b.dimension.dimensionId == dimensionId
       case GlobalKey(identity) => DimensionIdentity(b.dimension) == identity
  }

  ghost predicate TargetsOk(nodes: map<AuthorityId, NodeRecord>, targets: map<TargetKey, Balance>) {
    forall key :: key in targets ==> TargetOk(nodes, key, targets[key])
  }

  ghost predicate PolicyOk(policy: Option<PolicyRecord>, targets: map<TargetKey, Balance>) {
    policy.Some? ==>
      && ValidTerms(policy.value.policy.terms)
      && forall d :: d in DimensionsOf(policy.value.policy.terms) ==>
           GlobalKey(DimensionIdentity(d)) in targets && targets[GlobalKey(DimensionIdentity(d))].dimension == d
  }

  // A leg agrees with its target's measure, and its epoch is not after the epoch of `time`.
  ghost predicate LegFits(d: Dimension, l: Leg, time: int) {
    && l.decimals == d.limit.decimals
    && l.capacity == d.accounting.CAPACITY?
    && (l.epoch.Some? <==> d.restoration.EPOCH?)
    && (l.epoch.Some? ==> EpochIndex(d, time).Some? && l.epoch.value <= EpochIndex(d, time).value)
  }

  ghost predicate LegsFit(targets: map<TargetKey, Balance>, ds: seq<Demand>, time: int) {
    forall i, j :: 0 <= i < |ds| && 0 <= j < |ds[i].legs| ==>
      ds[i].legs[j].key in targets && LegFits(targets[ds[i].legs[j].key].dimension, ds[i].legs[j], time)
  }

  ghost predicate ReservationOk(targets: map<TargetKey, Balance>, id: ReservationId, r: Reservation, time: int) {
    && r.id == id && r.action == id.action && r.generation == id.generation
    && AllWellFormed(r.demands, r.status.ACTIVE?)
    && LegsFit(targets, r.demands, time)
  }

  ghost predicate ReservationsOk(targets: map<TargetKey, Balance>, rs: map<ReservationId, Reservation>, lastAt: Option<int>) {
    && (rs != map[] ==> lastAt.Some?)
    && forall id :: id in rs ==> ReservationOk(targets, id, rs[id], lastAt.value)
  }

  ghost function ConsumedPerEpoch(rs: map<ReservationId, Reservation>, key: TargetKey): int -> int {
    e => Total(rs, ConsumedIn(e), key)
  }

  // Conservation: a balance is exactly the sum of what all reservations charge to it.
  ghost predicate Balanced(b: Balance, rs: map<ReservationId, Reservation>, key: TargetKey) {
    && b.reserved == Total(rs, Outstanding, key)
    && b.consumed == Total(rs, Consumed, key)
    && b.restored == Total(rs, Restored, key)
    && Tracks(b.epochConsumed, ConsumedPerEpoch(rs, key))
  }

  ghost predicate SumsOk(targets: map<TargetKey, Balance>, rs: map<ReservationId, Reservation>) {
    forall key :: key in targets ==> Balanced(targets[key], rs, key)
  }

  // The latest epoch consumed in is not after the epoch of `time`.
  ghost predicate EpochPast(b: Balance, time: int) {
    b.epochConsumed.Some? ==>
      EpochIndex(b.dimension, time).Some? && b.epochConsumed.value.epoch <= EpochIndex(b.dimension, time).value
  }

  ghost predicate EpochsOk(targets: map<TargetKey, Balance>, lastAt: Option<int>) {
    forall key :: key in targets && targets[key].epochConsumed.Some? ==> lastAt.Some? && EpochPast(targets[key], lastAt.value)
  }

  // A granted limit is never exceeded: for good, net of what was restored, or within every single epoch.
  ghost predicate Within(b: Balance, rs: map<ReservationId, Reservation>, key: TargetKey) {
    var limit := b.dimension.limit.atoms;
    match b.dimension.restoration
    case NONE => Total(rs, Outstanding, key) + Total(rs, Consumed, key) <= limit
    case EPOCH => forall e :: Total(rs, OutstandingIn(e), key) + Total(rs, ConsumedIn(e), key) <= limit
    case AS_CHARGED => Total(rs, Outstanding, key) + Total(rs, Consumed, key) - Total(rs, Restored, key) <= limit
    case UNITS => Total(rs, Outstanding, key) + Total(rs, Consumed, key) - Total(rs, Restored, key) <= limit
  }

  ghost predicate LimitsOk(targets: map<TargetKey, Balance>, rs: map<ReservationId, Reservation>) {
    forall key :: key in targets && key.NodeKey? ==> Within(targets[key], rs, key)
  }

  // Generations of an action are 1, 2, ..., last; only the last can be open.
  ghost predicate ActionsOk(actions: map<Digest, ActionRecord>, rs: map<ReservationId, Reservation>) {
    && (forall a :: a in actions ==> actions[a].lastGeneration >= 1)
    && (forall id :: id in rs <==> (id.action in actions && 1 <= id.generation <= actions[id.action].lastGeneration))
    && (forall id :: id in rs ==> (rs[id].status.ACTIVE? <==> actions[id.action].open == Some(id)))
    && (forall a :: a in actions && actions[a].open.Some? ==>
          actions[a].open.value == ReservationId(a, actions[a].lastGeneration))
  }

  // An admitted attempt restates its reservation, and its artifact and slot lead back to it.
  ghost predicate AttemptOk(id: AttemptId, a: Admission, rs: map<ReservationId, Reservation>,
                            artifacts: map<Artifact, AttemptId>, slots: map<Slot, AttemptId>) {
    && a.attempt == id && DerivedAttemptId(a) == id && a.ordinal == 1
    && a.reservation in rs
    && rs[a.reservation].action == a.action
    && rs[a.reservation].moduleRef == a.moduleRef
    && a.generation == a.reservation.generation
    && a.artifact in artifacts && artifacts[a.artifact] == id
    && (a.slot.Some? ==> a.slot.value in slots && slots[a.slot.value] == id)
  }

  ghost predicate IndexesOk(attempts: map<AttemptId, Attempt>, artifacts: map<Artifact, AttemptId>, slots: map<Slot, AttemptId>) {
    && (forall x :: x in artifacts ==> artifacts[x] in attempts && attempts[artifacts[x]].admission.artifact == x)
    && (forall x :: x in slots ==> slots[x] in attempts && attempts[slots[x]].admission.slot == Some(x))
  }

  // A reservation has at most one attempt, and the two directions agree.
  ghost predicate OneAttempt(attempts: map<AttemptId, Attempt>, per: map<ReservationId, seq<AttemptId>>) {
    && (forall r :: r in per ==> |per[r]| == 1 && per[r][0] in attempts && attempts[per[r][0]].admission.reservation == r)
    && (forall id :: id in attempts ==> attempts[id].admission.reservation in per && per[attempts[id].admission.reservation] == [id])
  }

  ghost predicate AttemptsOk(attempts: map<AttemptId, Attempt>, artifacts: map<Artifact, AttemptId>, slots: map<Slot, AttemptId>,
                             per: map<ReservationId, seq<AttemptId>>, rs: map<ReservationId, Reservation>) {
    && (forall id :: id in attempts ==> AttemptOk(id, attempts[id].admission, rs, artifacts, slots))
    && IndexesOk(attempts, artifacts, slots)
    && OneAttempt(attempts, per)
  }

  ghost predicate Inv(s: State) {
    && NodesOk(s.principal, s.nodes, s.targets)
    && TargetsOk(s.nodes, s.targets)
    && PolicyOk(s.policy, s.targets)
    && ReservationsOk(s.targets, s.reservations, s.lastAt)
    && SumsOk(s.targets, s.reservations)
    && EpochsOk(s.targets, s.lastAt)
    && LimitsOk(s.targets, s.reservations)
    && ActionsOk(s.actions, s.reservations)
    && AttemptsOk(s.attempts, s.artifacts, s.slots, s.reservationAttempts, s.reservations)
    && (s.everReserved <==> s.reservations != map[])
  }

  // ---- Time ------------------------------------------------------------------------------------

  lemma EpochIndexGrows(d: Dimension, t: int, u: int)
    requires t <= u && EpochIndex(d, t).Some?
    ensures EpochIndex(d, u).Some? && EpochIndex(d, t).value <= EpochIndex(d, u).value
  {
    var k := d.epoch.value.lengthSeconds;
    DivMonotone(t - d.epoch.value.anchor, u - d.epoch.value.anchor, k);
  }

  lemma EpochsLater(targets: map<TargetKey, Balance>, last: Option<int>, u: int)
    requires EpochsOk(targets, last) && (last.Some? ==> last.value <= u)
    ensures EpochsOk(targets, Some(u))
  {
    forall key | key in targets && targets[key].epochConsumed.Some? ensures EpochPast(targets[key], u) {
      EpochIndexGrows(targets[key].dimension, last.value, u);
    }
  }

  lemma LegsFitLater(targets: map<TargetKey, Balance>, ds: seq<Demand>, t: int, u: int)
    requires t <= u && LegsFit(targets, ds, t)
    ensures LegsFit(targets, ds, u)
  {
    forall i, j | 0 <= i < |ds| && 0 <= j < |ds[i].legs|
      ensures ds[i].legs[j].key in targets && LegFits(targets[ds[i].legs[j].key].dimension, ds[i].legs[j], u)
    {
      var d, l := targets[ds[i].legs[j].key].dimension, ds[i].legs[j];
      assert LegFits(d, l, t);
      if l.epoch.Some? {
        EpochIndexGrows(d, t, u);
      }
    }
  }

  lemma ReservationsLater(targets: map<TargetKey, Balance>, rs: map<ReservationId, Reservation>, last: Option<int>, u: int)
    requires ReservationsOk(targets, rs, last) && (last.Some? ==> last.value <= u)
    ensures ReservationsOk(targets, rs, Some(u))
  {
    forall id | id in rs
      ensures ReservationOk(targets, id, rs[id], u)
    {
      LegsFitLater(targets, rs[id].demands, last.value, u);
    }
  }

  // ---- Changing the terms of targets without moving a balance ----------------------------------

  predicate SameNumbers(a: Balance, b: Balance) {
    a.reserved == b.reserved && a.consumed == b.consumed && a.restored == b.restored && a.epochConsumed == b.epochConsumed
  }

  predicate Untouched(b: Balance) {
    b.reserved == 0 && b.consumed == 0 && b.restored == 0 && b.epochConsumed.None?
  }

  // The old targets keep their numbers, their measure and, at nodes, their limit; new targets start from zero.
  ghost predicate Extends(before: map<TargetKey, Balance>, after: map<TargetKey, Balance>) {
    && (forall key :: key in before ==>
          && key in after
          && SameNumbers(before[key], after[key])
          && DimensionIdentity(before[key].dimension) == DimensionIdentity(after[key].dimension)
          && (key.NodeKey? ==> before[key].dimension == after[key].dimension))
    && (forall key :: key in after && key !in before ==> Untouched(after[key]))
  }

  lemma ExtendsTransitive(a: map<TargetKey, Balance>, b: map<TargetKey, Balance>, c: map<TargetKey, Balance>)
    requires Extends(a, b) && Extends(b, c)
    ensures Extends(a, c)
  {
  }

  lemma ExtendKeepsCharges(before: map<TargetKey, Balance>, after: map<TargetKey, Balance>, nodes: map<AuthorityId, NodeRecord>,
                           rs: map<ReservationId, Reservation>, lastAt: Option<int>)
    requires Extends(before, after) && TargetsOk(nodes, after)
    requires ReservationsOk(before, rs, lastAt) && SumsOk(before, rs) && EpochsOk(before, lastAt) && LimitsOk(before, rs)
    ensures ReservationsOk(after, rs, lastAt) && SumsOk(after, rs) && EpochsOk(after, lastAt) && LimitsOk(after, rs)
  {
    forall id | id in rs
      ensures ReservationOk(after, id, rs[id], lastAt.value)
    {
      FitsAfterExtend(before, after, rs[id].demands, lastAt.value);
    }
    EpochsAfterExtend(before, after, lastAt);
    forall key | key in after
      ensures Balanced(after[key], rs, key) && (key.NodeKey? ==> Within(after[key], rs, key))
    {
      if key in before {
        assert Balanced(before[key], rs, key);
      } else {
        NewTargetUncharged(before, rs, lastAt, key);
        forall e ensures Total(rs, ConsumedIn(e), key) == 0 && Total(rs, OutstandingIn(e), key) == 0 {
          TotalElsewhere(rs, ConsumedIn(e), key);
          TotalElsewhere(rs, OutstandingIn(e), key);
        }
        TotalElsewhere(rs, Outstanding, key);
        TotalElsewhere(rs, Consumed, key);
        TotalElsewhere(rs, Restored, key);
        assert ValidDimension(after[key].dimension);
      }
    }
  }

  lemma EpochsAfterExtend(before: map<TargetKey, Balance>, after: map<TargetKey, Balance>, lastAt: Option<int>)
    requires Extends(before, after) && EpochsOk(before, lastAt)
    ensures EpochsOk(after, lastAt)
  {
    forall key | key in after && after[key].epochConsumed.Some? ensures lastAt.Some? && EpochPast(after[key], lastAt.value) {
      var a, b := before[key].dimension, after[key].dimension;
      assert a.epoch == DimensionIdentity(a).epoch && b.epoch == DimensionIdentity(b).epoch;
    }
  }

  lemma FitsAfterExtend(before: map<TargetKey, Balance>, after: map<TargetKey, Balance>, ds: seq<Demand>, time: int)
    requires Extends(before, after) && LegsFit(before, ds, time)
    ensures LegsFit(after, ds, time)
  {
    forall i, j | 0 <= i < |ds| && 0 <= j < |ds[i].legs|
      ensures ds[i].legs[j].key in after && LegFits(after[ds[i].legs[j].key].dimension, ds[i].legs[j], time)
    {
      var a, b := before[ds[i].legs[j].key].dimension, after[ds[i].legs[j].key].dimension;
      assert DimensionIdentity(a) == DimensionIdentity(b);
      assert a.limit.decimals == DimensionIdentity(a).limit.decimals && b.limit.decimals == DimensionIdentity(b).limit.decimals;
    }
  }

  lemma NewTargetUncharged(before: map<TargetKey, Balance>, rs: map<ReservationId, Reservation>, lastAt: Option<int>, key: TargetKey)
    requires ReservationsOk(before, rs, lastAt) && key !in before
    ensures forall id :: id in rs ==> Uncharged(rs[id].demands, key)
  {
    forall id | id in rs
      ensures Uncharged(rs[id].demands, key)
    {
      assert ReservationOk(before, id, rs[id], lastAt.value);
    }
  }

  // ---- Registering a policy --------------------------------------------------------------------

  lemma {:induction false} RetireExtends(targets: map<TargetKey, Balance>, dims: seq<Dimension>)
    ensures var out := RetireDimensions(targets, dims);
            && Extends(targets, out)
            && out.Keys == targets.Keys
            && (forall key :: key in targets ==> out[key].dimension == targets[key].dimension)
    decreases |dims|
  {
    if dims != [] {
      var key := GlobalKey(DimensionIdentity(dims[0]));
      RetireExtends(if key in targets then targets[key := targets[key].(current := false)] else targets, dims[1..]);
    }
  }

  ghost predicate GlobalsOk(targets: map<TargetKey, Balance>) {
    forall key :: key in targets && key.GlobalKey? ==>
      ValidDimension(targets[key].dimension) && DimensionIdentity(targets[key].dimension) == key.identity
  }

  lemma {:induction false} InstallExtends(targets: map<TargetKey, Balance>, dims: seq<Dimension>, id: PolicyId)
    requires GlobalsOk(targets) && forall d :: d in dims ==> ValidDimension(d)
    ensures var out := InstallDimensions(targets, dims, id);
            && Extends(targets, out) && GlobalsOk(out)
            && (forall key: TargetKey :: key.NodeKey? ==> (key in out <==> key in targets))
            && (forall key: TargetKey :: key.NodeKey? && key in targets ==> out[key] == targets[key])
    decreases |dims|
  {
    if dims != [] {
      var d := dims[0];
      var key := GlobalKey(DimensionIdentity(d));
      var ref := PolicyRef(id, d.dimensionId);
      var b := if key in targets then targets[key].(ref := ref, dimension := d, current := true) else ZeroBalance(ref, FromPolicy, d);
      var mid := targets[key := b];
      assert Extends(targets, mid);
      InstallExtends(mid, dims[1..], id);
      ExtendsTransitive(targets, mid, InstallDimensions(mid, dims[1..], id));
    }
  }

  lemma {:induction false} InstallKeepsDimension(targets: map<TargetKey, Balance>, dims: seq<Dimension>, id: PolicyId, d: Dimension)
    requires forall x :: x in dims && DimensionIdentity(x) == DimensionIdentity(d) ==> x == d
    requires d in dims || (GlobalKey(DimensionIdentity(d)) in targets && targets[GlobalKey(DimensionIdentity(d))].dimension == d)
    ensures var out := InstallDimensions(targets, dims, id);
            GlobalKey(DimensionIdentity(d)) in out && out[GlobalKey(DimensionIdentity(d))].dimension == d
    decreases |dims|
  {
    if dims != [] {
      var x := dims[0];
      var key := GlobalKey(DimensionIdentity(x));
      var ref := PolicyRef(id, x.dimensionId);
      var b := if key in targets then targets[key].(ref := ref, dimension := x, current := true) else ZeroBalance(ref, FromPolicy, x);
      InstallKeepsDimension(targets[key := b], dims[1..], id, d);
    }
  }

  lemma PolicyTargetsOk(principal: Party, nodes: map<AuthorityId, NodeRecord>, targets: map<TargetKey, Balance>,
                        retiring: seq<Dimension>, terms: seq<Term>, id: PolicyId)
    requires NodesOk(principal, nodes, targets) && TargetsOk(nodes, targets) && ValidTerms(terms)
    ensures var out := InstallDimensions(RetireDimensions(targets, retiring), DimensionsOf(terms), id);
            && Extends(targets, out)
            && NodesOk(principal, nodes, out)
            && TargetsOk(nodes, out)
            && forall d :: d in DimensionsOf(terms) ==>
                 GlobalKey(DimensionIdentity(d)) in out && out[GlobalKey(DimensionIdentity(d))].dimension == d
  {
    var dims, retired := DimensionsOf(terms), RetireDimensions(targets, retiring);
    var out := InstallDimensions(retired, dims, id);
    RetireExtends(targets, retiring);
    forall key | key in retired ensures TargetOk(nodes, key, retired[key]) {
      assert TargetOk(nodes, key, targets[key]);
    }
    forall d | d in dims ensures ValidDimension(d) {
      DimensionsAreTerms(terms, d);
    }
    InstallExtends(retired, dims, id);
    ExtendsTransitive(targets, retired, out);
    forall d | d in dims
      ensures GlobalKey(DimensionIdentity(d)) in out && out[GlobalKey(DimensionIdentity(d))].dimension == d
    {
      forall x | x in dims && DimensionIdentity(x) == DimensionIdentity(d) ensures x == d {
        assert x.dimensionId == DimensionIdentity(x).dimensionId;
        DimensionUnique(terms, x, d);
      }
      InstallKeepsDimension(retired, dims, id, d);
    }
    forall key | key in out ensures TargetOk(nodes, key, out[key]) {
      if key.NodeKey? {
        assert TargetOk(nodes, key, retired[key]);
      }
    }
    forall n | n in nodes ensures NodeTargets(out, n) {
      assert NodeTargets(targets, n);
    }
  }

  lemma RegisterPolicyKeeps(s: State, policy: Policy, semantics: Semantics, version: nat, rules: Rules)
    requires Inv(s) && ValidTerms(policy.terms)
    requires ApplyRegisterPolicy(s, policy, semantics, version, rules).Ok?
    ensures Inv(ApplyRegisterPolicy(s, policy, semantics, version, rules).value)
    ensures ApplyRegisterPolicy(s, policy, semantics, version, rules).value.lastAt == s.lastAt
  {
    hide NodesOk, TargetsOk, ReservationsOk, SumsOk, EpochsOk, LimitsOk, ActionsOk, AttemptsOk;
    var t := ApplyRegisterPolicy(s, policy, semantics, version, rules).value;
    var retiring := if s.policy.Some? then DimensionsOf(s.policy.value.policy.terms) else [];
    assert t.targets == InstallDimensions(RetireDimensions(s.targets, retiring), DimensionsOf(policy.terms), PolicyId(policy));
    PolicyTargetsOk(s.principal, s.nodes, s.targets, retiring, policy.terms, PolicyId(policy));
    ExtendKeepsCharges(s.targets, t.targets, s.nodes, s.reservations, s.lastAt);
  }

  // ---- Registering and revoking grants ---------------------------------------------------------

  lemma {:induction false} InstallNodeExtends(targets: map<TargetKey, Balance>, dims: seq<Dimension>, id: AuthorityId, key: TargetKey)
    requires forall d :: d in dims ==> forall x :: x in dims && x.dimensionId == d.dimensionId ==> x == d
    ensures var out := InstallNode(targets, dims, id);
            if key.NodeKey? && key.authority == id && exists d :: d in dims && d.dimensionId == key.dimensionId
            then key in out && Untouched(out[key]) && out[key].dimension in dims && out[key].dimension.dimensionId == key.dimensionId
            else (key in out <==> key in targets) && (key in targets ==> out[key] == targets[key])
    decreases |dims|
  {
    if dims != [] {
      var d := dims[0];
      var b := ZeroBalance(NodeRef(id, d.dimensionId), FromGrant, d);
      InstallNodeExtends(targets[NodeKey(id, d.dimensionId) := b], dims[1..], id, key);
      assert forall x :: x in dims <==> x == d || x in dims[1..];
    }
  }

  lemma NewNodeTarget(nodes: map<AuthorityId, NodeRecord>, targets: map<TargetKey, Balance>, node: NodeRecord, key: TargetKey)
    requires TargetsOk(nodes, targets)
    requires node.id == AuthorityId(node.grant) && node.id !in nodes && ValidGrant(node.grant)
    ensures var out := InstallNode(targets, DimensionsOf(node.grant.terms), node.id);
            && (key in targets ==> key in out && out[key] == targets[key])
            && (key in out && key !in targets ==> Untouched(out[key]))
            && (key in out ==> TargetOk(nodes[node.id := node], key, out[key]))
            && (key.NodeKey? && key.authority == node.id ==> forall d ::
                  d in DimensionsOf(node.grant.terms) && d.dimensionId == key.dimensionId ==> key in out && out[key].dimension == d)
  {
    var dims := DimensionsOf(node.grant.terms);
    UniqueDimensions(node.grant.terms);
    InstallNodeExtends(targets, dims, node.id, key);
    if key in targets {
      assert TargetOk(nodes, key, targets[key]);
    }
    forall d | d in dims ensures ValidDimension(d) {
      DimensionsAreTerms(node.grant.terms, d);
    }
  }

  lemma UniqueDimensions(terms: seq<Term>)
    requires DistinctKeys(terms)
    ensures forall d, x :: d in DimensionsOf(terms) && x in DimensionsOf(terms) && x.dimensionId == d.dimensionId ==> x == d
  {
    forall d, x | d in DimensionsOf(terms) && x in DimensionsOf(terms) && x.dimensionId == d.dimensionId ensures x == d {
      DimensionUnique(terms, x, d);
    }
  }

  // Every old target is exactly as it was, and every new one starts from zero.
  ghost predicate Grown(before: map<TargetKey, Balance>, after: map<TargetKey, Balance>) {
    && (forall key :: key in before ==> key in after && after[key] == before[key])
    && (forall key :: key in after && key !in before ==> Untouched(after[key]))
  }

  lemma NodeTargetsGrow(nodes: map<AuthorityId, NodeRecord>, targets: map<TargetKey, Balance>, node: NodeRecord)
    requires TargetsOk(nodes, targets)
    requires node.id == AuthorityId(node.grant) && node.id !in nodes && ValidGrant(node.grant)
    ensures var out := InstallNode(targets, DimensionsOf(node.grant.terms), node.id);
            Grown(targets, out) && TargetsOk(nodes[node.id := node], out) && NodeTargets(out, node.id)
  {
    var out := InstallNode(targets, DimensionsOf(node.grant.terms), node.id);
    forall key: TargetKey
      ensures key in targets ==> key in out && out[key] == targets[key]
      ensures key in out && key !in targets ==> Untouched(out[key])
      ensures key in out ==> TargetOk(nodes[node.id := node], key, out[key])
    {
      NewNodeTarget(nodes, targets, node, key);
    }
    forall d | d in DimensionsOf(node.id.preimage.terms)
      ensures NodeKey(node.id, d.dimensionId) in out && out[NodeKey(node.id, d.dimensionId)].dimension == d
    {
      NewNodeTarget(nodes, targets, node, NodeKey(node.id, d.dimensionId));
    }
  }

  lemma NodesGrow(principal: Party, nodes: map<AuthorityId, NodeRecord>, before: map<TargetKey, Balance>, after: map<TargetKey, Balance>,
                  node: NodeRecord)
    requires NodesOk(principal, nodes, before) && Grown(before, after) && NodeTargets(after, node.id)
    requires node.id == AuthorityId(node.grant) && ValidGrant(node.grant) && node.grant.principal == principal
    ensures NodesOk(principal, nodes[node.id := node], after)
  {
    forall n | n in nodes ensures NodeTargets(after, n) {
      assert NodeTargets(before, n);
    }
  }

  lemma RegisterGrantEffect(s: State, g: Grant<AuthorityId>, semantics: Semantics, at: int, version: nat, rules: Rules) returns (node: NodeRecord)
    requires ApplyRegisterGrant(s, g, semantics, at, version, rules).Ok?
    ensures node.id == AuthorityId(g) && node.grant == g && node.id !in s.nodes && g.principal == s.principal
    ensures ApplyRegisterGrant(s, g, semantics, at, version, rules).value
         == s.(nodes := s.nodes[node.id := node], targets := InstallNode(s.targets, DimensionsOf(g.terms), node.id))
  {
    var depth := CheckGrant(s, AuthorityId(g), g, semantics, at, rules).value;
    node := NodeRecord(AuthorityId(g), g, depth, semantics, version, None, None);
  }

  lemma RegisterGrantKeeps(s: State, g: Grant<AuthorityId>, semantics: Semantics, at: int, version: nat, rules: Rules)
    requires Inv(s) && ValidGrant(g)
    requires ApplyRegisterGrant(s, g, semantics, at, version, rules).Ok?
    ensures Inv(ApplyRegisterGrant(s, g, semantics, at, version, rules).value)
    ensures ApplyRegisterGrant(s, g, semantics, at, version, rules).value.lastAt == s.lastAt
  {
    hide ApplyRegisterGrant, NodesOk, TargetsOk, ReservationsOk, SumsOk, EpochsOk, LimitsOk, ActionsOk, AttemptsOk;
    var node := RegisterGrantEffect(s, g, semantics, at, version, rules);
    var targets := InstallNode(s.targets, DimensionsOf(g.terms), node.id);
    NodeTargetsGrow(s.nodes, s.targets, node);
    NodesGrow(s.principal, s.nodes, s.targets, targets, node);
    assert Extends(s.targets, targets);
    PolicyStays(s.policy, s.targets, targets);
    ExtendKeepsCharges(s.targets, targets, s.nodes[node.id := node], s.reservations, s.lastAt);
  }

  lemma PolicyStays(policy: Option<PolicyRecord>, before: map<TargetKey, Balance>, after: map<TargetKey, Balance>)
    requires PolicyOk(policy, before)
    requires forall key :: key in before ==> key in after && after[key].dimension == before[key].dimension
    ensures PolicyOk(policy, after)
  {
  }

  lemma RevokeKeeps(s: State, r: Revocation, at: int, version: nat)
    requires Inv(s) && ApplyRevoke(s, r, at, version).Ok?
    ensures Inv(ApplyRevoke(s, r, at, version).value)
    ensures ApplyRevoke(s, r, at, version).value.lastAt == s.lastAt
  {
    hide ReservationsOk, SumsOk, EpochsOk, LimitsOk, ActionsOk, AttemptsOk, PolicyOk;
    assert r.target in s.nodes;
    var node := s.nodes[r.target].(revokedAt := Some(version), revocation := Some(r));
    RevokedNodesOk(s.principal, s.nodes, s.targets, r.target, node);
  }

  lemma RevokedNodesOk(principal: Party, nodes: map<AuthorityId, NodeRecord>, targets: map<TargetKey, Balance>, id: AuthorityId, node: NodeRecord)
    requires NodesOk(principal, nodes, targets) && TargetsOk(nodes, targets)
    requires id in nodes && node.id == nodes[id].id && node.grant == nodes[id].grant
    ensures NodesOk(principal, nodes[id := node], targets) && TargetsOk(nodes[id := node], targets)
  {
    forall key | key in targets ensures TargetOk(nodes[id := node], key, targets[key]) {
      assert TargetOk(nodes, key, targets[key]);
    }
  }

  // ---- Attempts --------------------------------------------------------------------------------

  lemma AdmitEffect(s: State, a: Admission, at: int, version: nat)
    requires ApplyAdmit(s, a, at, version).Ok?
    ensures && a.reservation in s.reservations
            && s.reservations[a.reservation].action == a.action
            && s.reservations[a.reservation].moduleRef == a.moduleRef
            && s.reservations[a.reservation].generation == a.generation
            && s.reservations[a.reservation].status.ACTIVE?
            && AttemptsOf(s, a.reservation) == [] && a.ordinal == 1
            && a.attempt == DerivedAttemptId(a) && a.attempt !in s.attempts
            && a.artifact !in s.artifacts && (a.slot.Some? ==> a.slot.value !in s.slots)
            && at < a.validUntil
    ensures ApplyAdmit(s, a, at, version).value
         == s.(attempts := s.attempts[a.attempt := Attempt(a, version, at)],
               artifacts := s.artifacts[a.artifact := a.attempt],
               slots := if a.slot.Some? then s.slots[a.slot.value := a.attempt] else s.slots,
               reservationAttempts := s.reservationAttempts[a.reservation := [a.attempt]])
  {
    assert [] + [a.attempt] == [a.attempt];
  }

  lemma AdmitKeeps(s: State, a: Admission, at: int, version: nat)
    requires Inv(s) && ApplyAdmit(s, a, at, version).Ok?
    ensures Inv(ApplyAdmit(s, a, at, version).value)
    ensures ApplyAdmit(s, a, at, version).value.lastAt == s.lastAt
  {
    hide ApplyAdmit, NodesOk, TargetsOk, PolicyOk, SumsOk, EpochsOk, LimitsOk, ActionsOk;
    AdmitEffect(s, a, at, version);
    assert ReservationOk(s.targets, a.reservation, s.reservations[a.reservation], s.lastAt.value);
    assert s.reservationAttempts[a.reservation := [a.attempt]].Keys == s.reservationAttempts.Keys + {a.reservation};
    NewAttemptOk(s.attempts, s.artifacts, s.slots, s.reservationAttempts, s.reservations, a, Attempt(a, version, at));
  }

  lemma NewAttemptOk(attempts: map<AttemptId, Attempt>, artifacts: map<Artifact, AttemptId>, slots: map<Slot, AttemptId>,
                     per: map<ReservationId, seq<AttemptId>>, rs: map<ReservationId, Reservation>, a: Admission, record: Attempt)
    requires AttemptsOk(attempts, artifacts, slots, per, rs) && record.admission == a
    requires a.reservation in rs && rs[a.reservation].action == a.action && rs[a.reservation].moduleRef == a.moduleRef
    requires a.generation == a.reservation.generation
    requires a.reservation in per ==> per[a.reservation] == []
    requires a.ordinal == 1 && a.attempt == DerivedAttemptId(a) && a.attempt !in attempts
    requires a.artifact !in artifacts && (a.slot.Some? ==> a.slot.value !in slots)
    ensures AttemptsOk(attempts[a.attempt := record], artifacts[a.artifact := a.attempt],
                       if a.slot.Some? then slots[a.slot.value := a.attempt] else slots, per[a.reservation := [a.attempt]], rs)
  {
    var after, arts := attempts[a.attempt := record], artifacts[a.artifact := a.attempt];
    var taken := if a.slot.Some? then slots[a.slot.value := a.attempt] else slots;
    assert a.reservation !in per;
    forall id | id in after ensures AttemptOk(id, after[id].admission, rs, arts, taken) {
      if id != a.attempt {
        assert AttemptOk(id, attempts[id].admission, rs, artifacts, slots);
      }
    }
  }
}
