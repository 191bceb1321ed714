// The ledger's transition rules: packages/ledger/src/{reducer,charging,graph,state,attempt,store}.ts.
// Everything here is a pure function of the state and the event, as it is there.
module Ledger {
  import opened Common
  import opened Core
  import opened Decimals

  // ---- Identities: digests stand for their preimages -------------------------------------------

  datatype AuthorityId = AuthorityId(preimage: Grant<AuthorityId>)

  datatype PolicyId = PolicyId(preimage: Policy)

  datatype ReservationId = ReservationId(action: Digest, generation: int)

  datatype AttemptId = AttemptId(
    reservation: ReservationId, generation: int, action: Digest, moduleRef: ModuleRef,
    adapter: AdapterRef, authorization: Digest, ordinal: int)

  // A policy dimension's identity is everything but its limit's atoms.
  function DimensionIdentity(d: Dimension): Dimension {
    d.(limit := d.limit.(atoms := 0))
  }

  datatype TargetKey = NodeKey(authority: AuthorityId, dimensionId: string) | GlobalKey(identity: Dimension)

  datatype TargetRef = NodeRef(authority: AuthorityId, dimensionId: string) | PolicyRef(policy: PolicyId, dimensionId: string)

  // ---- State -----------------------------------------------------------------------------------

  // The canonical bytes of a registration's committed semantic bindings and proofs.
  datatype Semantics = Semantics(bindings: Bytes, proofs: Bytes)

  datatype Revocation = Revocation(target: AuthorityId, issuer: Party, effectiveAt: int)

  datatype NodeRecord = NodeRecord(
    id: AuthorityId, grant: Grant<AuthorityId>, depth: nat, semantics: Semantics,
    registeredAt: nat, revokedAt: Option<nat>, revocation: Option<Revocation>)

  datatype PolicyRecord = PolicyRecord(id: PolicyId, policy: Policy, semantics: Semantics, registeredAt: nat)

  datatype EpochConsumed = EpochConsumed(epoch: int, atoms: int)

  datatype Source = FromGrant | FromPolicy

  datatype Balance = Balance(
    ref: TargetRef, source: Source, dimension: Dimension, current: bool,
    reserved: int, consumed: int, restored: int, epochConsumed: Option<EpochConsumed>)

  datatype Quantity = Quantity(kind: QuantityKind, unit: string, decimals: nat, atoms: int, asset: Option<Resource>)

  datatype Contribution = Contribution(
    quantity: Quantity, market: Option<Resource>, account: Option<Resource>, required: bool)

  datatype Leg = Leg(key: TargetKey, ref: TargetRef, decimals: nat, capacity: bool, epoch: Option<int>)

  datatype Demand = Demand(
    contribution: Contribution, legs: seq<Leg>, reserved: int, consumed: int, released: int, restored: int)

  datatype Status = ACTIVE | CLOSED

  datatype Reservation = Reservation(
    id: ReservationId, action: Digest, generation: int, authority: AuthorityId, lineage: seq<AuthorityId>,
    policy: PolicyId, moduleRef: ModuleRef, implementation: Digest, committedAt: nat, reservedAt: int,
    status: Status, demands: seq<Demand>)

  datatype ActionRecord = ActionRecord(lastGeneration: int, open: Option<ReservationId>)

  datatype Artifact = Artifact(kind: string, id: Digest)

  datatype Slot = Slot(scope: string, sequence: int)

  datatype Admission = Admission(
    attempt: AttemptId, ordinal: int, reservation: ReservationId, generation: int, action: Digest,
    authorization: Digest, moduleRef: ModuleRef, adapter: AdapterRef, venueAccount: Resource,
    artifact: Artifact, slot: Option<Slot>, validUntil: int, requirements: Digest, revalidation: Digest)

  // Every admitted attempt stays live: its only status is ADMITTED.
  datatype Attempt = Attempt(admission: Admission, admittedAt: nat, admittedTime: int)

  datatype State = State(
    principal: Party,
    version: nat,
    head: Head,
    lastAt: Option<int>,
    policy: Option<PolicyRecord>,
    everReserved: bool,
    nodes: map<AuthorityId, NodeRecord>,
    targets: map<TargetKey, Balance>,
    reservations: map<ReservationId, Reservation>,
    actions: map<Digest, ActionRecord>,
    attempts: map<AttemptId, Attempt>,
    artifacts: map<Artifact, AttemptId>,
    slots: map<Slot, AttemptId>,
    reservationAttempts: map<ReservationId, seq<AttemptId>>)

  // ---- Events ----------------------------------------------------------------------------------

  datatype Plan = Plan(
    principal: Party, authority: AuthorityId, actor: Party, action: Digest, generation: int,
    moduleRef: ModuleRef, implementation: Digest, contributions: seq<Contribution>)

  datatype EventLeg = EventLeg(target: TargetRef, amount: int, epoch: Option<int>)

  datatype AccountingKind = CONSUME | CLOSE | RESTORE

  // The observation slot of an accounting event; a never-issued close fills it with its own derived evidence.
  datatype Evidence =
    | Observation(id: Digest)
    | NeverIssued(reservation: ReservationId, generation: int, authorization: Digest, revalidation: Digest)

  datatype Event =
    | RegisterPolicy(at: int, policy: Policy, semantics: Semantics)
    | RegisterGrant(at: int, grant: Grant<AuthorityId>, semantics: Semantics)
    | Revoke(at: int, revocation: Revocation)
    | Reserve(at: int, plan: Plan, lineage: seq<AuthorityId>, policyId: PolicyId, legs: seq<seq<EventLeg>>)
    | Account(at: int, kind: AccountingKind, reservation: ReservationId, generation: int,
              evidence: Evidence, amounts: seq<int>)
    | AdmitAttempt(at: int, admission: Admission)

  // A hash chain: equal heads have equal histories.
  datatype Head = Genesis(principal: Party) | Batch(principal: Party, version: nat, previous: Head, events: seq<Event>)

  const MAX_BATCH_EVENTS: nat := 256
  const MAX_PLAN_CONTRIBUTIONS: nat := 64
  const MAX_ATTEMPTS_PER_RESERVATION: nat := 16
  const MAX_ARTIFACT_ID_BYTES: nat := 64

  // Configuration of the reducer: the rules that read opaque invariant parameters and semantic bindings,
  // and the per-term subset rules of a delegation other than its depth and its window.
  datatype Rules = Rules(
    policySemantics: (Policy, Semantics) -> bool,
    policyInvariants: (PolicyRecord, Policy, Semantics) -> bool,
    grantSemantics: (Option<NodeRecord>, Grant<AuthorityId>, Semantics) -> bool,
    narrows: (Grant<AuthorityId>, Grant<AuthorityId>, Semantics) -> bool)

  function EmptyState(principal: Party): State {
    State(principal, 0, Genesis(principal), None, None, false, map[], map[], map[], map[], map[], map[], map[], map[])
  }

  // ---- Validity of the objects events carry ----------------------------------------------------

  predicate ValidTerms(terms: seq<Term>) {
    && DistinctKeys(terms)
    && (forall i :: 0 <= i < |terms| && terms[i].DimensionTerm? ==> ValidDimension(terms[i].dimension))
    && (forall i :: 0 <= i < |terms| && terms[i].RightTerm? && terms[i].right.DELEGATE? ==>
          1 <= terms[i].right.maxDepth <= MAX_DELEGATION_DEPTH)
  }

  predicate ValidGrant(g: Grant<AuthorityId>) {
    && ValidTerms(g.terms)
    && |g.terms| <= MAX_GRANT_TERMS
    && g.notBefore < g.expiresAt
    && (g.lineage.ROOT? ==> g.lineage.issuer == g.principal)
  }

  predicate ValidPlan(p: Plan) {
    && 1 <= |p.contributions| <= MAX_PLAN_CONTRIBUTIONS
    && p.generation >= 1
    && forall i :: 0 <= i < |p.contributions| ==>
         && p.contributions[i].quantity.atoms > 0
         && p.contributions[i].quantity.decimals <= MAX_DECIMALS
  }

  predicate ValidEvent(e: Event) {
    match e
    case RegisterPolicy(_, p, _) => ValidTerms(p.terms)
    case RegisterGrant(_, g, _) => ValidGrant(g)
    case Revoke(_, _) => true
    case Reserve(_, plan, _, _, _) => ValidPlan(plan)
    case Account(_, _, _, _, _, _) => true
    case AdmitAttempt(_, _) => true
  }

  // ---- Lineages --------------------------------------------------------------------------------

  // The nodes from a grant up to its root, within `room` of them.
  function ResolveLineage(nodes: map<AuthorityId, NodeRecord>, leaf: AuthorityId, room: nat): (r: Result<seq<NodeRecord>>)
    ensures r.Ok? ==> 1 <= |r.value| <= room
    decreases room
  {
    if room == 0 then Refused("AUTHORITY_DEPTH_EXCEEDED")
    else if leaf !in nodes then Refused("AUTHORITY_UNKNOWN")
    else
      var node := nodes[leaf];
      match node.grant.lineage
      case ROOT(_) => Ok([node])
      case DELEGATION(parent, _) =>
        match ResolveLineage(nodes, parent, room - 1)
        case Refused(code) => Refused(code)
        case Ok(rest) => Ok([node] + rest)
  }

  function DelegateDepth(terms: seq<Term>): nat {
    if terms == [] then 0
    else if terms[0].RightTerm? && terms[0].right.DELEGATE? then terms[0].right.maxDepth
    else DelegateDepth(terms[1..])
  }

  // Remaining delegation depth of the first node of a lineage: min(parent - 1, own), never below zero.
  function EffectiveDepth(lineage: seq<NodeRecord>): nat
    requires lineage != []
  {
    var own := DelegateDepth(lineage[0].grant.terms);
    if |lineage| == 1 then own
    else
      var inherited := EffectiveDepth(lineage[1..]) - 1;
      if inherited < 0 then 0 else if own < inherited then own else inherited
  }

  // Why a resolved lineage may not be used at `at`, root first; None when it may.
  function LineageRefusal(s: State, lineage: seq<NodeRecord>, at: int): Option<string> {
    if s.policy.None? then Some("PRINCIPAL_POLICY_MISSING") else NodesRefusal(s.principal, lineage, at)
  }

  function NodesRefusal(principal: Party, lineage: seq<NodeRecord>, at: int): Option<string> {
    if lineage == [] then None
    else
      var above := NodesRefusal(principal, lineage[1..], at);
      var node := lineage[0];
      var g := node.grant;
      if above.Some? then above
      else if g.principal != principal then Some("AUTHORITY_PRINCIPAL_MISMATCH")
      else if |lineage| > 1 &&
              !(g.lineage.DELEGATION? && g.lineage.parent == lineage[1].id && g.lineage.issuer == lineage[1].grant.holder)
      then Some("AUTHORITY_ISSUER_MISMATCH")
      else if |lineage| > 1 && EffectiveDepth(lineage[1..]) < 1 then Some("AUTHORITY_DEPTH_EXCEEDED")
      else if |lineage| == 1 && !(g.lineage.ROOT? && g.lineage.issuer == principal) then Some("AUTHORITY_ISSUER_MISMATCH")
      else if node.revokedAt.Some? then Some("AUTHORITY_REVOKED")
      else if at < g.notBefore then Some("AUTHORITY_NOT_YET_VALID")
      else if at >= g.expiresAt then Some("AUTHORITY_EXPIRED")
      else None
  }

  // ---- Registration ----------------------------------------------------------------------------

  function ZeroBalance(ref: TargetRef, source: Source, d: Dimension): Balance {
    Balance(ref, source, d, true, 0, 0, 0, None)
  }

  function RetireDimensions(targets: map<TargetKey, Balance>, dims: seq<Dimension>): map<TargetKey, Balance>
    decreases |dims|
  {
    if dims == [] then targets
    else
      var key := GlobalKey(DimensionIdentity(dims[0]));
      RetireDimensions(if key in targets then targets[key := targets[key].(current := false)] else targets, dims[1..])
  }

  // A dimension already installed changes its limit and not its balance.
  function InstallDimensions(targets: map<TargetKey, Balance>, dims: seq<Dimension>, id: PolicyId): map<TargetKey, Balance>
    decreases |dims|
  {
    if dims == [] then targets
    else
      var d := dims[0];
      var key := GlobalKey(DimensionIdentity(d));
      var ref := PolicyRef(id, d.dimensionId);
      var b := if key in targets then targets[key].(ref := ref, dimension := d, current := true) else ZeroBalance(ref, FromPolicy, d);
      InstallDimensions(targets[key := b], dims[1..], id)
  }

  // No dimension of the next policy is unknown to the previous one, limits aside.
  predicate KeepsDimensions(previous: Policy, next: Policy) {
    forall d :: d in DimensionsOf(next.terms) ==>
      exists p :: p in DimensionsOf(previous.terms) && DimensionIdentity(p) == DimensionIdentity(d)
  }

  function ApplyRegisterPolicy(s: State, policy: Policy, semantics: Semantics, version: nat, rules: Rules): Result<State> {
    if policy.principal != s.principal then Refused("PRINCIPAL_MISMATCH")
    else if s.policy.Some? && policy.sequence <= s.policy.value.policy.sequence then Refused("POLICY_SEQUENCE_NOT_INCREASING")
    else if !rules.policySemantics(policy, semantics) then Refused("SEMANTIC_BINDING_INVALID")
    else if s.policy.Some? && s.everReserved &&
            !(KeepsDimensions(s.policy.value.policy, policy) && rules.policyInvariants(s.policy.value, policy, semantics))
    then Refused("POLICY_UPDATE_REQUIRES_BASELINE")
    else
      var retired := if s.policy.Some? then RetireDimensions(s.targets, DimensionsOf(s.policy.value.policy.terms)) else s.targets;
      var id := PolicyId(policy);
      Ok(s.(policy := Some(PolicyRecord(id, policy, semantics, version)),
            targets := InstallDimensions(retired, DimensionsOf(policy.terms), id)))
  }

  function InstallNode(targets: map<TargetKey, Balance>, dims: seq<Dimension>, id: AuthorityId): map<TargetKey, Balance>
    decreases |dims|
  {
    if dims == [] then targets
    else
      var d := dims[0];
      var b := ZeroBalance(NodeRef(id, d.dimensionId), FromGrant, d);
      InstallNode(targets[NodeKey(id, d.dimensionId) := b], dims[1..], id)
  }

  // The depth a grant would be registered at.
  function CheckGrant(s: State, id: AuthorityId, g: Grant<AuthorityId>, semantics: Semantics, at: int, rules: Rules): Result<nat> {
    if g.principal != s.principal then Refused("PRINCIPAL_MISMATCH")
    else if s.policy.None? then Refused("PRINCIPAL_POLICY_MISSING")
    else if id in s.nodes then Refused("AUTHORITY_ALREADY_REGISTERED")
    else if at >= g.expiresAt then Refused("AUTHORITY_EXPIRED")
    else match g.lineage
      case ROOT(_) => Ok(0)
      case DELEGATION(parentId, issuer) =>
        match ResolveLineage(s.nodes, parentId, MAX_LINEAGE_LENGTH)
        case Refused(code) => Refused(code)
        case Ok(lineage) =>
          var refusal := LineageRefusal(s, lineage, at);
          if refusal.Some? then Refused(refusal.value) else CheckDelegation(lineage, g, issuer, semantics, rules)
  }

  // The child against its parent, the first node of a valid lineage.
  function CheckDelegation(lineage: seq<NodeRecord>, g: Grant<AuthorityId>, issuer: Party, semantics: Semantics, rules: Rules): Result<nat>
    requires lineage != []
  {
    var parent := lineage[0];
    var depth := EffectiveDepth(lineage);
    if g.principal != parent.grant.principal then Refused("AUTHORITY_PRINCIPAL_MISMATCH")
    else if issuer != parent.grant.holder then Refused("AUTHORITY_ISSUER_MISMATCH")
    else if depth < 1 || DelegateDepth(g.terms) > depth - 1 then Refused("DELEGATION_DEPTH_EXCEEDED")
    else if g.notBefore < parent.grant.notBefore || g.expiresAt > parent.grant.expiresAt then Refused("DELEGATION_WIDENS_WINDOW")
    else if !rules.narrows(parent.grant, g, semantics) then Refused("DELEGATION_REFUSED")
    else if |lineage| >= MAX_LINEAGE_LENGTH then Refused("AUTHORITY_DEPTH_EXCEEDED")
    else Ok(parent.depth + 1)
  }

  function ApplyRegisterGrant(s: State, g: Grant<AuthorityId>, semantics: Semantics, at: int, version: nat, rules: Rules): Result<State> {
    var id := AuthorityId(g);
    var parent := if g.lineage.DELEGATION? && g.lineage.parent in s.nodes then Some(s.nodes[g.lineage.parent]) else None;
    if !rules.grantSemantics(parent, g, semantics) then Refused("SEMANTIC_BINDING_INVALID")
    else match CheckGrant(s, id, g, semantics, at, rules)
      case Refused(code) => Refused(code)
      case Ok(depth) =>
        Ok(s.(nodes := s.nodes[id := NodeRecord(id, g, depth, semantics, version, None, None)],
              targets := InstallNode(s.targets, DimensionsOf(g.terms), id)))
  }

  function ApplyRevoke(s: State, r: Revocation, at: int, version: nat): Result<State> {
    match ResolveLineage(s.nodes, r.target, MAX_LINEAGE_LENGTH)
    case Refused(code) => Refused(code)
    case Ok(lineage) =>
      if r.effectiveAt > at then Refused("REVOCATION_NOT_EFFECTIVE")
      else if exists i :: 0 <= i < |lineage| && lineage[i].revokedAt.Some? then Refused("AUTHORITY_REVOKED")
      else if !exists i :: 0 <= i < |lineage| && lineage[i].grant.lineage.issuer == r.issuer
      then Refused("REVOCATION_ISSUER_NOT_ELIGIBLE")
      else if r.target !in s.nodes then Refused("AUTHORITY_UNKNOWN")
      else Ok(s.(nodes := s.nodes[r.target := s.nodes[r.target].(revokedAt := Some(version), revocation := Some(r))]))
  }

  // ---- Charging --------------------------------------------------------------------------------

  predicate ScopeMatches<T(==)>(want: Option<T>, have: Option<T>) {
    want.None? || want == have
  }

  predicate ContributionMatches(c: Contribution, domain: string, d: Dimension) {
    && c.quantity.kind == d.limit.kind
    && c.quantity.unit == d.limit.unit
    && ScopeMatches(d.scope.asset, c.quantity.asset)
    && ScopeMatches(d.scope.market, c.market)
    && (d.scope.domain.None? || d.scope.domain.value == domain)
    && ScopeMatches(d.scope.account, c.account)
  }

  function EpochIndex(d: Dimension, at: int): Option<int> {
    if d.epoch.None? || at < d.epoch.value.anchor || d.epoch.value.lengthSeconds <= 0 then None
    else Some((at - d.epoch.value.anchor) / d.epoch.value.lengthSeconds)
  }

  datatype LegDraft = LegDraft(key: TargetKey, ref: TargetRef, dimension: Dimension, amount: int, epoch: Option<int>)

  function LegFor(key: TargetKey, ref: TargetRef, d: Dimension, c: Contribution, at: int): Result<LegDraft> {
    if d.sign.NET? then Refused("NET_DIMENSION_UNSUPPORTED")
    else
      var amount := RescaleExact(c.quantity.atoms, c.quantity.decimals, d.limit.decimals);
      if amount.None? then Refused("INEXACT_RESCALE")
      else if d.restoration.EPOCH? && EpochIndex(d, at).None? then Refused("EPOCH_NOT_STARTED")
      else Ok(LegDraft(key, ref, d, amount.value, if d.restoration.EPOCH? then EpochIndex(d, at) else None))
  }

  function NodeLegs(id: AuthorityId, dims: seq<Dimension>, c: Contribution, domain: string, at: int): Result<seq<LegDraft>> {
    if dims == [] then Ok([])
    else if !ContributionMatches(c, domain, dims[0]) then NodeLegs(id, dims[1..], c, domain, at)
    else match LegFor(NodeKey(id, dims[0].dimensionId), NodeRef(id, dims[0].dimensionId), dims[0], c, at)
      case Refused(code) => Refused(code)
      case Ok(leg) =>
        match NodeLegs(id, dims[1..], c, domain, at)
        case Refused(code) => Refused(code)
        case Ok(rest) => Ok([leg] + rest)
  }

  function LineageLegs(lineage: seq<NodeRecord>, c: Contribution, domain: string, at: int): Result<seq<LegDraft>> {
    if lineage == [] then Ok([])
    else match NodeLegs(lineage[0].id, DimensionsOf(lineage[0].grant.terms), c, domain, at)
      case Refused(code) => Refused(code)
      case Ok(own) =>
        match LineageLegs(lineage[1..], c, domain, at)
        case Refused(code) => Refused(code)
        case Ok(rest) => Ok(own + rest)
  }

  function PolicyLegs(id: PolicyId, dims: seq<Dimension>, c: Contribution, domain: string, at: int): Result<seq<LegDraft>> {
    if dims == [] then Ok([])
    else if !ContributionMatches(c, domain, dims[0]) then PolicyLegs(id, dims[1..], c, domain, at)
    else match LegFor(GlobalKey(DimensionIdentity(dims[0])), PolicyRef(id, dims[0].dimensionId), dims[0], c, at)
      case Refused(code) => Refused(code)
      case Ok(leg) =>
        match PolicyLegs(id, dims[1..], c, domain, at)
        case Refused(code) => Refused(code)
        case Ok(rest) => Ok([leg] + rest)
  }

  // All legs of one contribution: those of its grants first, those of the policy after.
  function ContributionLegs(lineage: seq<NodeRecord>, policy: PolicyRecord, c: Contribution, domain: string, at: int): Result<seq<LegDraft>> {
    match LineageLegs(lineage, c, domain, at)
    case Refused(code) => Refused(code)
    case Ok(own) =>
      if c.required && own == [] then Refused("UNBOUNDED_CONTRIBUTION")
      else match PolicyLegs(policy.id, DimensionsOf(policy.policy.terms), c, domain, at)
        case Refused(code) => Refused(code)
        case Ok(global) => Ok(own + global)
  }

  function DeriveLegs(lineage: seq<NodeRecord>, policy: PolicyRecord, cs: seq<Contribution>, domain: string, at: int): (r: Result<seq<seq<LegDraft>>>)
    ensures r.Ok? ==> |r.value| == |cs|
  {
    if cs == [] then Ok([])
    else match ContributionLegs(lineage, policy, cs[0], domain, at)
      case Refused(code) => Refused(code)
      case Ok(first) =>
        match DeriveLegs(lineage, policy, cs[1..], domain, at)
        case Refused(code) => Refused(code)
        case Ok(rest) => Ok([first] + rest)
  }

  function AvailableOf(b: Balance, at: int): int {
    var g := b.dimension.limit.atoms;
    match b.dimension.restoration
    case NONE => g - b.consumed - b.reserved
    case EPOCH =>
      var e := EpochIndex(b.dimension, at);
      var used := if e.Some? && b.epochConsumed.Some? && b.epochConsumed.value.epoch == e.value then b.epochConsumed.value.atoms else 0;
      g - used - b.reserved
    case AS_CHARGED => g - b.consumed - b.reserved + b.restored
    case UNITS => g - b.consumed - b.reserved + b.restored
  }

  function Flatten<T>(xss: seq<seq<T>>): seq<T> {
    if xss == [] then [] else xss[0] + Flatten(xss[1..])
  }

  // Amounts per target, added up over all legs.
  function DemandMap(legs: seq<LegDraft>, acc: map<TargetKey, int>): map<TargetKey, int> {
    if legs == [] then acc
    else
      var key := legs[0].key;
      DemandMap(legs[1..], acc[key := (if key in acc then acc[key] else 0) + legs[0].amount])
  }

  function CheckAvailability(targets: map<TargetKey, Balance>, legs: seq<seq<LegDraft>>, at: int): Result<map<TargetKey, int>> {
    var demand := DemandMap(Flatten(legs), map[]);
    if exists key :: key in demand && key !in targets then Refused("TARGET_UNKNOWN")
    else if exists key :: key in demand && key in targets && targets[key].reserved + demand[key] > UINT256_MAX then Refused("AMOUNT_OVERFLOW")
    else if exists key :: key in demand && key in targets && demand[key] > AvailableOf(targets[key], at) then Refused("LEDGER_LIMIT_EXCEEDED")
    else Ok(demand)
  }

  // ---- Reservation -----------------------------------------------------------------------------

  // The exact module, digest included, is in every node's module set.
  predicate ModuleAllowed(lineage: seq<NodeRecord>, m: ModuleRef) {
    forall i :: 0 <= i < |lineage| ==> NodeAllowsModule(lineage[i].grant.terms, m)
  }

  predicate NodeAllowsModule(terms: seq<Term>, m: ModuleRef) {
    exists i :: 0 <= i < |terms| && terms[i].SetTerm? && terms[i].members.MODULES? && m in terms[i].members.modules
  }

  datatype Derived = Derived(reservation: ReservationId, lineage: seq<NodeRecord>, legs: seq<seq<LegDraft>>)

  // What the plan charges and under which lineage, or the first reason it cannot be reserved.
  function DeriveReservation(s: State, plan: Plan, at: int): Result<Derived> {
    if plan.principal != s.principal then Refused("PRINCIPAL_MISMATCH")
    else if s.policy.None? then Refused("PRINCIPAL_POLICY_MISSING")
    else match ResolveLineage(s.nodes, plan.authority, MAX_LINEAGE_LENGTH)
      case Refused(code) => Refused(code)
      case Ok(lineage) =>
        var refusal := LineageRefusal(s, lineage, at);
        var id := ReservationId(plan.action, plan.generation);
        if refusal.Some? then Refused(refusal.value)
        else if plan.actor != lineage[0].grant.holder then Refused("ACTOR_NOT_HOLDER")
        else if !ModuleAllowed(lineage, plan.moduleRef) then Refused("MODULE_NOT_PERMITTED")
        else if id in s.reservations then Refused("RESERVATION_EXISTS")
        else if plan.action in s.actions && s.actions[plan.action].open.Some? then Refused("PREVIOUS_GENERATION_OPEN")
        else if plan.generation != (if plan.action in s.actions then s.actions[plan.action].lastGeneration + 1 else 1)
        then Refused("GENERATION_OUT_OF_SEQUENCE")
        else match DeriveLegs(lineage, s.policy.value, plan.contributions, plan.moduleRef.domainId, at)
          case Refused(code) => Refused(code)
          case Ok(legs) => Ok(Derived(id, lineage, legs))
  }

  function LineageIds(lineage: seq<NodeRecord>): (r: seq<AuthorityId>)
    ensures |r| == |lineage|
  {
    seq(|lineage|, i requires 0 <= i < |lineage| => lineage[i].id)
  }

  function EventLegs(drafts: seq<LegDraft>): seq<EventLeg> {
    seq(|drafts|, i requires 0 <= i < |drafts| => EventLeg(drafts[i].ref, drafts[i].amount, drafts[i].epoch))
  }

  function AllEventLegs(drafts: seq<seq<LegDraft>>): seq<seq<EventLeg>> {
    seq(|drafts|, i requires 0 <= i < |drafts| => EventLegs(drafts[i]))
  }

  // The only event the reducer accepts for this plan here.
  function DeriveReserveEvent(s: State, plan: Plan, at: int): Result<Event> {
    match DeriveReservation(s, plan, at)
    case Refused(code) => Refused(code)
    case Ok(d) =>
      if s.policy.None? then Refused("PRINCIPAL_POLICY_MISSING")
      else Ok(Reserve(at, plan, LineageIds(d.lineage), s.policy.value.id, AllEventLegs(d.legs)))
  }

  function LegRecord(l: LegDraft): Leg {
    Leg(l.key, l.ref, l.dimension.limit.decimals, l.dimension.accounting.CAPACITY?, l.epoch)
  }

  function LegRecords(ls: seq<LegDraft>): seq<Leg> {
    seq(|ls|, i requires 0 <= i < |ls| => LegRecord(ls[i]))
  }

  function DemandRecords(cs: seq<Contribution>, legs: seq<seq<LegDraft>>): seq<Demand>
    requires |cs| == |legs|
  {
    seq(|cs|, i requires 0 <= i < |cs| => Demand(cs[i], LegRecords(legs[i]), cs[i].quantity.atoms, 0, 0, 0))
  }

  function AddReserved(targets: map<TargetKey, Balance>, demand: map<TargetKey, int>): map<TargetKey, Balance> {
    map key | key in targets ::
      if key in demand then targets[key].(reserved := targets[key].reserved + demand[key]) else targets[key]
  }

  function ApplyReserve(s: State, e: Event, version: nat): Result<State>
    requires e.Reserve?
  {
    match DeriveReservation(s, e.plan, e.at)
    case Refused(code) => Refused(code)
    case Ok(d) =>
      if s.policy.None? || e.policyId != s.policy.value.id || e.lineage != LineageIds(d.lineage) || e.legs != AllEventLegs(d.legs)
         || |d.legs| != |e.plan.contributions|
      then Refused("CHARGE_PATH_MISMATCH")
      else match CheckAvailability(s.targets, d.legs, e.at)
        case Refused(code) => Refused(code)
        case Ok(demand) =>
          var record := Reservation(
            d.reservation, e.plan.action, e.plan.generation, e.plan.authority, LineageIds(d.lineage), s.policy.value.id,
            e.plan.moduleRef, e.plan.implementation, version, e.at, ACTIVE, DemandRecords(e.plan.contributions, d.legs));
          Ok(s.(everReserved := true,
                targets := AddReserved(s.targets, demand),
                reservations := s.reservations[d.reservation := record],
                actions := s.actions[e.plan.action := ActionRecord(e.plan.generation, Some(d.reservation))]))
  }

  // ---- Accounting ------------------------------------------------------------------------------

  function UpdateBalance(b: Balance, x: int, epoch: Option<int>, kind: AccountingKind): Option<Balance> {
    match kind
    case CONSUME =>
      if b.consumed + x > UINT256_MAX then None
      else
        var ec :=
          if epoch.None? then b.epochConsumed
          else if b.epochConsumed.None? || b.epochConsumed.value.epoch < epoch.value then Some(EpochConsumed(epoch.value, x))
          else if b.epochConsumed.value.epoch == epoch.value then Some(EpochConsumed(epoch.value, b.epochConsumed.value.atoms + x))
          else b.epochConsumed;
        Some(b.(reserved := b.reserved - x, consumed := b.consumed + x, epochConsumed := ec))
    case CLOSE => Some(b.(reserved := b.reserved - x))
    case RESTORE => Some(b.(restored := b.restored + x))
  }

  // Move every leg of a demand by the same amount, rescaled exactly; BUDGET legs never restore.
  function ForEachLeg(targets: map<TargetKey, Balance>, legs: seq<Leg>, from: nat, amount: int, kind: AccountingKind): Result<map<TargetKey, Balance>>
    decreases |legs|
  {
    if legs == [] then Ok(targets)
    else
      var leg := legs[0];
      if kind.RESTORE? && !leg.capacity then ForEachLeg(targets, legs[1..], from, amount, kind)
      else
        var x := RescaleExact(amount, from, leg.decimals);
        if x.None? then Refused("INEXACT_RESCALE")
        else if leg.key !in targets then Refused("TARGET_UNKNOWN")
        else
          var next := UpdateBalance(targets[leg.key], x.value, leg.epoch, kind);
          if next.None? then Refused("AMOUNT_OVERFLOW")
          else ForEachLeg(targets[leg.key := next.value], legs[1..], from, amount, kind)
  }

  function AmountRefusal(d: Demand, amount: int, kind: AccountingKind): Option<string> {
    match kind
    case CONSUME => if amount > d.reserved - d.consumed then Some("CONSUME_EXCEEDS_RESERVED") else None
    case CLOSE => if amount != d.reserved - d.consumed then Some("RELEASE_MISMATCH") else None
    case RESTORE =>
      if amount > d.consumed - d.restored then Some("RESTORE_EXCEEDS_CONSUMED")
      else if amount > 0 && !exists i :: 0 <= i < |d.legs| && d.legs[i].capacity then Some("RESTORE_NOT_PERMITTED")
      else None
  }

  function MoveDemand(d: Demand, amount: int, kind: AccountingKind): Demand {
    match kind
    case CONSUME => d.(consumed := d.consumed + amount)
    case CLOSE => d.(released := amount)
    case RESTORE => d.(restored := d.restored + amount)
  }

  function MoveDemands(targets: map<TargetKey, Balance>, demands: seq<Demand>, amounts: seq<int>, kind: AccountingKind)
    : (r: Result<(map<TargetKey, Balance>, seq<Demand>)>)
    requires |demands| == |amounts|
    ensures r.Ok? ==> |r.value.1| == |demands|
    decreases |demands|
  {
    if demands == [] then Ok((targets, []))
    else
      var d := demands[0];
      var refusal := AmountRefusal(d, amounts[0], kind);
      if refusal.Some? then Refused(refusal.value)
      else match ForEachLeg(targets, d.legs, d.contribution.quantity.decimals, amounts[0], kind)
        case Refused(code) => Refused(code)
        case Ok(moved) =>
          match MoveDemands(moved, demands[1..], amounts[1..], kind)
          case Refused(code) => Refused(code)
          case Ok(rest) => Ok((rest.0, [MoveDemand(d, amounts[0], kind)] + rest.1))
  }

  function ApplyAccount(s: State, e: Event): Result<State>
    requires e.Account?
  {
    if e.reservation !in s.reservations then Refused("RESERVATION_UNKNOWN")
    else
      var r := s.reservations[e.reservation];
      if r.generation != e.generation then Refused("RESERVATION_ID_MISMATCH")
      else if |e.amounts| != |r.demands| || exists i :: 0 <= i < |e.amounts| && e.amounts[i] < 0 then Refused("ACCOUNTING_SHAPE_INVALID")
      else if !e.kind.RESTORE? && r.status != ACTIVE then Refused("RESERVATION_CLOSED")
      else if !e.kind.CLOSE? && !exists i :: 0 <= i < |e.amounts| && e.amounts[i] > 0 then Refused("ACCOUNTING_SHAPE_INVALID")
      else match MoveDemands(s.targets, r.demands, e.amounts, e.kind)
        case Refused(code) => Refused(code)
        case Ok(moved) =>
          var closes := e.kind.CLOSE?;
          var actions :=
            if closes && r.action in s.actions && s.actions[r.action].open == Some(r.id)
            then s.actions[r.action := s.actions[r.action].(open := None)] else s.actions;
          Ok(s.(targets := moved.0, actions := actions,
                reservations := s.reservations[r.id := r.(demands := moved.1, status := if closes then CLOSED else r.status)]))
  }

  // ---- Attempts --------------------------------------------------------------------------------

  function DerivedAttemptId(a: Admission): AttemptId {
    AttemptId(a.reservation, a.generation, a.action, a.moduleRef, a.adapter, a.authorization, a.ordinal)
  }

  predicate AdmissionShape(a: Admission) {
    && 1 <= a.ordinal <= MAX_ATTEMPTS_PER_RESERVATION
    && 1 <= Width(a.artifact.id) <= MAX_ARTIFACT_ID_BYTES
    && (a.slot.Some? ==> 0 <= a.slot.value.sequence <= UINT64_MAX && ValidIdentifier(a.slot.value.scope))
    && ValidIdentifier(a.artifact.kind)
    && ValidResource(a.venueAccount) && a.venueAccount.kind.ACCOUNT?
    && INT64_MIN <= a.validUntil <= INT64_MAX
  }

  function AttemptsOf(s: State, id: ReservationId): seq<AttemptId> {
    if id in s.reservationAttempts then s.reservationAttempts[id] else []
  }

  function ApplyAdmit(s: State, a: Admission, at: int, version: nat): Result<State> {
    if !AdmissionShape(a) then Refused("ATTEMPT_SHAPE_INVALID")
    else if a.reservation !in s.reservations then Refused("RESERVATION_UNKNOWN")
    else
      var r := s.reservations[a.reservation];
      var prior := AttemptsOf(s, a.reservation);
      if r.generation != a.generation then Refused("RESERVATION_ID_MISMATCH")
      else if r.action != a.action || r.moduleRef != a.moduleRef then Refused("ATTEMPT_BINDING_MISMATCH")
      else if r.status != ACTIVE then Refused("RESERVATION_CLOSED")
      else if prior != [] then Refused("ATTEMPT_UNRESOLVED")
      else if a.ordinal != |prior| + 1 || DerivedAttemptId(a) != a.attempt || a.attempt in s.attempts then Refused("ATTEMPT_ID_MISMATCH")
      else if a.artifact in s.artifacts then Refused("ARTIFACT_REUSED")
      else if a.slot.Some? && a.slot.value in s.slots then Refused("VENUE_SLOT_REUSED")
      else if a.validUntil <= at then Refused("ATTEMPT_EXPIRED")
      else match ResolveLineage(s.nodes, r.authority, MAX_LINEAGE_LENGTH)
        case Refused(code) => Refused(code)
        case Ok(lineage) =>
          var refusal := LineageRefusal(s, lineage, at);
          if refusal.Some? then Refused(refusal.value)
          else Ok(s.(attempts := s.attempts[a.attempt := Attempt(a, version, at)],
                     artifacts := s.artifacts[a.artifact := a.attempt],
                     slots := if a.slot.Some? then s.slots[a.slot.value := a.attempt] else s.slots,
                     reservationAttempts := s.reservationAttempts[a.reservation := prior + [a.attempt]]))
  }

  // ---- Folding ---------------------------------------------------------------------------------

  function ApplyEvent(s: State, e: Event, version: nat, rules: Rules): Result<State> {
    if !ValidEvent(e) then Refused("MALFORMED")
    else if s.lastAt.Some? && e.at < s.lastAt.value then Refused("EVALUATION_TIME_REGRESSED")
    else
      var next :=
        match e
        case RegisterPolicy(_, policy, semantics) => ApplyRegisterPolicy(s, policy, semantics, version, rules)
        case RegisterGrant(at, grant, semantics) => ApplyRegisterGrant(s, grant, semantics, at, version, rules)
        case Revoke(at, revocation) => ApplyRevoke(s, revocation, at, version)
        case Reserve(_, _, _, _, _) => ApplyReserve(s, e, version)
        case Account(_, _, _, _, _, _) => ApplyAccount(s, e)
        case AdmitAttempt(at, admission) => ApplyAdmit(s, admission, at, version);
      match next
      case Refused(code) => Refused(code)
      case Ok(t) => Ok(t.(lastAt := Some(e.at)))
  }

  function ApplyEvents(s: State, events: seq<Event>, version: nat, rules: Rules): Result<State>
    decreases |events|
  {
    if events == [] then Ok(s)
    else match ApplyEvent(s, events[0], version, rules)
      case Refused(code) => Refused(code)
      case Ok(t) => ApplyEvents(t, events[1..], version, rules)
  }

  // All events in order or a refusal, and one version per batch.
  function ApplyBatch(s: State, events: seq<Event>, rules: Rules): Result<State> {
    if events == [] then Refused("BATCH_EMPTY")
    else if |events| > MAX_BATCH_EVENTS then Refused("BATCH_TOO_LARGE")
    else if s.version + 1 > UINT64_MAX then Refused("VERSION_OUT_OF_RANGE")
    else match ApplyEvents(s, events, s.version + 1, rules)
      case Refused(code) => Refused(code)
      case Ok(t) => Ok(t.(version := s.version + 1, head := Batch(s.principal, s.version + 1, s.head, events)))
  }

  // The full fold from genesis.
  function Replay(principal: Party, batches: seq<seq<Event>>, rules: Rules): Result<State> {
    if batches == [] then Ok(EmptyState(principal))
    else match Replay(principal, batches[..|batches| - 1], rules)
      case Refused(code) => Refused(code)
      case Ok(s) => ApplyBatch(s, batches[|batches| - 1], rules)
  }
}
