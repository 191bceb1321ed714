// One decision, its record, and issue-time revalidation, as functions of a ledger snapshot
// (packages/control/src/pipeline.ts:491-616, authorization.ts:140-193, revalidation.ts:101-187).
module Decisions {
  import opened Common
  import opened Core
  import opened Canonical
  import opened StateAdmission
  import opened StateNeeds
  import opened StateBindings
  import L = Ledger
  import LI = LedgerInvariant
  import LS = LedgerSafety

  datatype Action = Action(
    id: Digest, principal: Party, authority: L.AuthorityId, actor: Party, moduleRef: ModuleRef, adapter: AdapterRef,
    payloadDigest: Digest, validFrom: int, expiresAt: int)

  datatype Request = Request(action: Action, generation: int, payloadDigest: Digest, states: seq<Prepared>, context: Context)

  datatype Mode = PROPOSE | REVALIDATE

  // The domain modules, their catalog and the registries: functions the control engine calls and never looks into.
  datatype Env = Env(
    rules: L.Rules,
    decidable: ModuleRef -> bool,
    lifecycle: ModuleRef -> bool,
    ladders: ModuleRef -> seq<Ladder>,
    implementation: ModuleRef -> Digest,
    conforms: (ModuleRef, Digest) -> bool,
    // Whether the acting module accepts the action under its authority, and the end it sets to any authorization.
    analyse: (L.State, Action, int) -> Result<Option<int>>,
    // Every participant's checked needs, participant by participant.
    needs: (L.State, Action, Mode) -> Result<seq<Need>>,
    policies: (L.State, Action) -> seq<StatePolicy>,
    needKey: (ModuleRef, string, Resource) -> string,
    // Projection and every invariant over the admitted state and the pending set.
    verdict: (L.State, Action, Mode, seq<AdmittedState>) -> Result<bool>,
    demands: (L.State, Action, seq<AdmittedState>) -> Result<seq<L.Contribution>>,
    encodeBinding: Binding -> Bytes,
    decisionAdapter: AdapterRef -> bool,
    attemptAdapter: AdapterRef -> bool,
    issuable: ModuleRef -> bool)

  // ---- Authority -------------------------------------------------------------------------------

  function ResolveAuthority(s: L.State, a: Action, t: int): Result<seq<L.NodeRecord>> {
    if a.principal != s.principal then Refused("PRINCIPAL_MISMATCH")
    else if s.policy.None? then Refused("PRINCIPAL_POLICY_MISSING")
    else match L.ResolveLineage(s.nodes, a.authority, MAX_LINEAGE_LENGTH)
      case Refused(code) => Refused(code)
      case Ok(lineage) =>
        var refusal := L.LineageRefusal(s, lineage, t);
        if refusal.Some? then Refused(refusal.value)
        else if a.actor != lineage[0].grant.holder then Refused("ACTOR_NOT_HOLDER")
        else Ok(lineage)
  }

  function LineageEnd(lineage: seq<L.NodeRecord>): int
    requires lineage != []
  {
    if |lineage| == 1 then lineage[0].grant.expiresAt else Min(lineage[0].grant.expiresAt, LineageEnd(lineage[1..]))
  }

  // ---- State -----------------------------------------------------------------------------------

  function Keyed(env: Env, n: Need): Need {
    n.(key := env.needKey(n.moduleRef, n.stateKind, n.subject))
  }

  function EffectiveNeeds(env: Env, needs: seq<Need>, policies: seq<StatePolicy>): Result<seq<Need>> {
    if needs == [] then Ok([])
    else match EffectiveNeed(Keyed(env, needs[0]), policies)
      case Refused(code) => Refused(code)
      case Ok(n) =>
        match EffectiveNeeds(env, needs[1..], policies)
        case Refused(code) => Refused(code)
        case Ok(rest) => Ok([n] + rest)
  }

  function AdmitState(env: Env, s: L.State, a: Action, mode: Mode, states: seq<Prepared>, ctx: Context): Result<seq<AdmittedState>> {
    match env.needs(s, a, mode)
    case Refused(code) => Refused(code)
    case Ok(raw) =>
      match EffectiveNeeds(env, raw, env.policies(s, a))
      case Refused(code) => Refused(code)
      case Ok(needs) =>
        match MergeNeeds(needs)
        case Refused(code) => Refused(code)
        case Ok(merged) => AdmitAll(merged, states, ctx)
  }

  function AdmittedBindings(admissions: seq<AdmittedState>): (r: seq<Binding>)
    ensures |r| == |admissions|
  {
    seq(|admissions|, i requires 0 <= i < |admissions| => admissions[i].binding)
  }

  // The bindings of the admissions, in the order of their canonical bytes.
  function BindingsOf(env: Env, admissions: seq<AdmittedState>): (r: seq<Binding>)
    ensures |r| == |admissions|
  {
    Sort(AdmittedBindings(admissions), env.encodeBinding)
  }

  // ---- The decision ----------------------------------------------------------------------------

  datatype Decision = Decision(
    version: nat, head: L.Head, evaluatedAt: int, action: Action, generation: int, lineage: seq<L.AuthorityId>,
    policy: L.PolicyId, admissions: seq<AdmittedState>, bindings: seq<Binding>, event: L.Event, validUntil: int)

  function PlanOf(env: Env, a: Action, generation: int, contributions: seq<L.Contribution>): L.Plan {
    L.Plan(a.principal, a.authority, a.actor, a.id, generation, a.moduleRef, env.implementation(a.moduleRef), contributions)
  }

  // The RESERVE the ledger derives for the action's demands and would itself accept.
  function ReserveFor(env: Env, s: L.State, a: Action, generation: int, admissions: seq<AdmittedState>, t: int): Result<L.Event> {
    match env.demands(s, a, admissions)
    case Refused(code) => Refused(code)
    case Ok(contributions) =>
      var plan := PlanOf(env, a, generation, contributions);
      if !L.ValidPlan(plan) then Refused("PLAN_INVALID")
      else if !env.conforms(plan.moduleRef, plan.implementation) then Refused("MODULE_NOT_CONFORMING")
      else match L.DeriveReserveEvent(s, plan, t)
        case Refused(code) => Refused(code)
        case Ok(event) =>
          match L.ApplyBatch(s, [event], env.rules)
          case Refused(code) => Refused(code)
          case Ok(_) => Ok(event)
  }

  predicate ValidAction(a: Action) {
    INT64_MIN <= a.validFrom < a.expiresAt <= INT64_MAX
  }

  function Decide(env: Env, s: L.State, req: Request): Result<Decision> {
    var a, t := req.action, req.context.evaluationTime;
    if !(INT64_MIN <= t <= INT64_MAX) || !ValidAction(a) || req.generation < 1 then Refused("REQUEST_INVALID")
    else if !env.decidable(a.moduleRef) then Refused("MODULE_NOT_AVAILABLE")
    else if req.payloadDigest != a.payloadDigest then Refused("PAYLOAD_DIGEST_MISMATCH")
    else if t < a.validFrom then Refused("ACTION_NOT_YET_VALID")
    else if t >= a.expiresAt then Refused("ACTION_EXPIRED")
    else match ResolveAuthority(s, a, t)
      case Refused(code) => Refused(code)
      case Ok(lineage) =>
        match env.analyse(s, a, t)
        case Refused(code) => Refused(code)
        case Ok(cap) => DecideOn(env, s, req, lineage, cap)
  }

  function DecideOn(env: Env, s: L.State, req: Request, lineage: seq<L.NodeRecord>, cap: Option<int>): Result<Decision> {
    var a, t := req.action, req.context.evaluationTime;
    match AdmitState(env, s, a, PROPOSE, req.states, req.context)
    case Refused(code) => Refused(code)
    case Ok(admissions) =>
      match env.verdict(s, a, PROPOSE, admissions)
      case Refused(code) => Refused(code)
      case Ok(holds) =>
        if !holds then Refused("INVARIANT_VIOLATED")
        else match ReserveFor(env, s, a, req.generation, admissions, t)
          case Refused(code) => Refused(code)
          case Ok(event) =>
            if lineage == [] || s.policy.None? then Refused("AUTHORITY_INVALID")
            else
              var bindings := BindingsOf(env, admissions);
              var validUntil := AuthorizationLifetime(a.expiresAt, LineageEnd(lineage), cap, bindings);
              if validUntil <= t then Refused("LIFETIME_EMPTY")
              else Ok(Decision(s.version, s.head, t, a, req.generation, L.LineageIds(lineage), s.policy.value.id,
                               admissions, bindings, event, validUntil))
  }

  // ---- The record ------------------------------------------------------------------------------

  const MAX_STATE_BINDINGS: nat := 64

  datatype Record = Record(
    id: Digest, executionId: Digest, action: Action, reservation: L.ReservationId, generation: int, lineage: seq<L.AuthorityId>,
    bindings: seq<Binding>, bindingModules: seq<ModuleRef>, evaluatedAt: int, validUntil: int,
    versionRead: nat, versionCommitted: nat)

  predicate NoRepeats<T(==)>(xs: seq<T>) {
    forall i, j :: 0 <= i < j < |xs| ==> xs[i] != xs[j]
  }

  // The module whose admission produced a binding.
  function ModuleOf(b: Binding, admissions: seq<AdmittedState>): Option<ModuleRef> {
    if admissions == [] then None
    else if admissions[0].binding.stateDigest == b.stateDigest then Some(admissions[0].need.moduleRef)
    else ModuleOf(b, admissions[1..])
  }

  function ModulesOf(bs: seq<Binding>, admissions: seq<AdmittedState>): Result<seq<ModuleRef>> {
    if bs == [] then Ok([])
    else
      var m := ModuleOf(bs[0], admissions);
      if m.None? then Refused("BINDING_WITHOUT_ADMISSION")
      else match ModulesOf(bs[1..], admissions)
        case Refused(code) => Refused(code)
        case Ok(rest) => Ok([m.value] + rest)
  }

  function RecordOf(d: Decision, committed: L.State): Result<Record> {
    if committed.version != d.version + 1 then Refused("COMMIT_NOT_AT_DECISION_VERSION")
    else if !(1 <= |d.lineage| <= MAX_LINEAGE_LENGTH) || !NoRepeats(d.lineage) then Refused("LINEAGE_INVALID")
    else if |d.bindings| > MAX_STATE_BINDINGS then Refused("COLLECTION_TOO_LARGE")
    else if !NoRepeats(d.bindings) then Refused("DUPLICATE_SET_MEMBER")
    else if !(INT64_MIN <= d.validUntil <= INT64_MAX) || committed.version > UINT64_MAX then Refused("INTEGER_OUT_OF_RANGE")
    else match ModulesOf(d.bindings, d.admissions)
      case Refused(code) => Refused(code)
      case Ok(modules) =>
        var executionId := Keccak([Text("execution"), d.action.id, Number(d.generation), Number(d.validUntil)]);
        Ok(Record(Keccak([Text("authorization"), executionId, Number(d.version), Number(d.evaluatedAt)]), executionId, d.action,
                  L.ReservationId(d.action.id, d.generation), d.generation, d.lineage, d.bindings, modules, d.evaluatedAt,
                  d.validUntil, d.version, committed.version))
  }

  // ---- Revalidation ----------------------------------------------------------------------------

  datatype Revalidation =
    | PASSED(refreshed: bool, bindings: seq<Binding>, validUntil: int, evaluatedAt: int, id: Digest)
    | FAILED(code: string, evaluatedAt: int, id: Digest)

  function ActiveReservation(s: L.State, r: Record): Result<L.Reservation> {
    if r.reservation !in s.reservations then Refused("RESERVATION_UNKNOWN")
    else
      var x := s.reservations[r.reservation];
      if x.generation != r.generation || x.action != r.action.id then Refused("GENERATION_MISMATCH")
      else if x.moduleRef != r.action.moduleRef then Refused("MODULE_MISMATCH")
      else if x.status != L.ACTIVE then Refused("RESERVATION_CLOSED")
      else Ok(x)
  }

  predicate NeedsRecheck(r: Record) {
    exists i :: 0 <= i < |r.bindings| && r.bindings[i].requirement.atIssue.RECHECK?
  }

  // Every binding re-admits from itself alone, under its module's ladders.
  predicate StillAdmitted(env: Env, r: Record, ctx: Context) {
    |r.bindings| == |r.bindingModules| &&
    forall i :: 0 <= i < |r.bindings| ==>
      env.lifecycle(r.bindingModules[i]) &&
      Readmit(r.bindings[i], r.bindingModules[i].domainId, env.ladders(r.bindingModules[i]), ctx).None?
  }

  function RevalidationId(r: Record, version: nat, t: int, passed: bool, reason: string): Digest {
    Keccak([Text("revalidation"), r.id, Number(version), Number(t), Number(if passed then 1 else 0), Text(reason)])
  }

  function Revalidate(env: Env, s: L.State, r: Record, req: Request): Result<Revalidation> {
    var t := req.context.evaluationTime;
    match ActiveReservation(s, r)
    case Refused(code) => Refused(code)
    case Ok(_) =>
      if !(INT64_MIN <= t <= INT64_MAX) || req.payloadDigest != r.action.payloadDigest then Refused("REQUEST_INVALID")
      else if t >= r.validUntil then Failed(s, r, t, "AUTHORIZATION_EXPIRED")
      else match ResolveAuthority(s, r.action, t)
        case Refused(code) => Failed(s, r, t, code)
        case Ok(_) =>
          if !env.lifecycle(r.action.moduleRef) then Failed(s, r, t, "MODULE_UNAVAILABLE")
          else if !NeedsRecheck(r) && StillAdmitted(env, r, req.context)
          then Ok(PASSED(false, r.bindings, r.validUntil, t, RevalidationId(r, s.version, t, true, "READMITTED")))
          else Refresh(env, s, r, req)
  }

  function Failed(s: L.State, r: Record, t: int, code: string): Result<Revalidation> {
    Ok(FAILED(code, t, RevalidationId(r, s.version, t, false, code)))
  }

  function Refresh(env: Env, s: L.State, r: Record, req: Request): Result<Revalidation> {
    var t := req.context.evaluationTime;
    match AdmitState(env, s, r.action, REVALIDATE, req.states, req.context)
    case Refused(code) => Failed(s, r, t, code)
    case Ok(admissions) =>
      match env.verdict(s, r.action, REVALIDATE, admissions)
      case Refused(code) => Failed(s, r, t, code)
      case Ok(holds) =>
        if !holds then Failed(s, r, t, "INVARIANT_VIOLATED")
        else
          var bindings := BindingsOf(env, admissions);
          var validUntil := LifetimeOf(bindings, r.validUntil);
          if validUntil <= t then Failed(s, r, t, "LIFETIME_EMPTY")
          else Ok(PASSED(true, bindings, validUntil, t, RevalidationId(r, s.version, t, true, "REFRESHED")))
  }

  // ---- What a decision fixes -------------------------------------------------------------------

  lemma {:induction false} LineageEndBounds(lineage: seq<L.NodeRecord>, i: nat)
    requires i < |lineage|
    ensures LineageEnd(lineage) <= lineage[i].grant.expiresAt
    decreases |lineage|
  {
    if i > 0 {
      LineageEndBounds(lineage[1..], i - 1);
    }
  }

  // How a decision was reached, stage by stage.
  ghost predicate DecidedBy(env: Env, s: L.State, req: Request, d: Decision, lineage: seq<L.NodeRecord>, cap: Option<int>) {
    && ValidAction(req.action) && INT64_MIN <= req.context.evaluationTime <= INT64_MAX
    && req.action.validFrom <= req.context.evaluationTime < req.action.expiresAt
    && req.generation >= 1 && env.decidable(req.action.moduleRef) && req.payloadDigest == req.action.payloadDigest
    && env.analyse(s, req.action, req.context.evaluationTime) == Ok(cap)
    && ResolveAuthority(s, req.action, req.context.evaluationTime) == Ok(lineage)
    && lineage != [] && s.policy.Some?
    && AdmitState(env, s, req.action, PROPOSE, req.states, req.context) == Ok(d.admissions)
    && env.verdict(s, req.action, PROPOSE, d.admissions) == Ok(true)
    && ReserveFor(env, s, req.action, req.generation, d.admissions, req.context.evaluationTime) == Ok(d.event)
    && d.bindings == BindingsOf(env, d.admissions)
    && d.validUntil == AuthorizationLifetime(req.action.expiresAt, LineageEnd(lineage), cap, d.bindings)
    && d.validUntil > req.context.evaluationTime
    && d.version == s.version && d.head == s.head && d.evaluatedAt == req.context.evaluationTime
    && d.action == req.action && d.generation == req.generation && d.lineage == L.LineageIds(lineage) && d.policy == s.policy.value.id
  }

  lemma DecisionStages(env: Env, s: L.State, req: Request) returns (lineage: seq<L.NodeRecord>, cap: Option<int>)
    requires Decide(env, s, req).Ok?
    ensures DecidedBy(env, s, req, Decide(env, s, req).value, lineage, cap)
  {
    hide AdmitState, ReserveFor, ResolveAuthority, LineageEnd, AuthorizationLifetime;
    lineage := ResolveAuthority(s, req.action, req.context.evaluationTime).value;
    cap := env.analyse(s, req.action, req.context.evaluationTime).value;
  }

  // A decision's end is after now and outlives neither the action, nor any grant on its lineage, nor any bounded binding.
  lemma DecisionLifetime(env: Env, s: L.State, req: Request, d: Decision)
    requires Decide(env, s, req) == Ok(d)
    ensures req.context.evaluationTime < d.validUntil <= req.action.expiresAt
    ensures forall lineage: seq<L.NodeRecord> :: ResolveAuthority(s, req.action, req.context.evaluationTime) == Ok(lineage) ==>
              forall i :: 0 <= i < |lineage| ==> d.validUntil <= lineage[i].grant.expiresAt
    ensures forall k :: 0 <= k < |AllEnds(d.bindings)| ==> d.validUntil <= AllEnds(d.bindings)[k]
  {
    hide ResolveAuthority, AdmitState, ReserveFor, Decide;
    var lineage, cap := DecisionStages(env, s, req);
    AuthorizationLifetimeIsGlb(req.action.expiresAt, LineageEnd(lineage), cap, d.bindings, d.validUntil);
    forall i | 0 <= i < |lineage| ensures d.validUntil <= lineage[i].grant.expiresAt {
      LineageEndBounds(lineage, i);
    }
  }

  // The decision's event is the RESERVE derived from this very snapshot, and the reducer accepts it there.
  lemma DecisionEvent(env: Env, s: L.State, req: Request, d: Decision)
    requires Decide(env, s, req) == Ok(d)
    ensures d.event.Reserve? && d.event.at == req.context.evaluationTime
    ensures d.event.plan.action == req.action.id && d.event.plan.generation == req.generation
    ensures L.DeriveReserveEvent(s, d.event.plan, req.context.evaluationTime) == Ok(d.event)
    ensures L.ApplyBatch(s, [d.event], env.rules).Ok?
  {
    hide ResolveAuthority, AdmitState, Decide, L.DeriveReservation, L.ApplyBatch;
    var lineage, cap := DecisionStages(env, s, req);
  }

  // ---- The record always follows the commit ----------------------------------------------------

  lemma {:induction false} EffectiveNeedsKeyed(env: Env, needs: seq<Need>, policies: seq<StatePolicy>)
    requires EffectiveNeeds(env, needs, policies).Ok?
    ensures var out := EffectiveNeeds(env, needs, policies).value;
            forall i :: 0 <= i < |out| ==> out[i] == Keyed(env, out[i])
    decreases |needs|
  {
    if needs != [] {
      EffectiveNeedsKeyed(env, needs[1..], policies);
      PoliciesKeepSubject(Keyed(env, needs[0]), policies);
    }
  }

  lemma {:induction false} PoliciesKeepSubject(n: Need, policies: seq<StatePolicy>)
    requires EffectiveNeed(n, policies).Ok?
    ensures EffectiveNeed(n, policies).value == n.(sources := EffectiveNeed(n, policies).value.sources,
                                                   requirement := EffectiveNeed(n, policies).value.requirement)
    decreases |policies|
  {
    hide Tighten;
    if policies != [] {
      if !Applies(policies[0], n) {
        PoliciesKeepSubject(n, policies[1..]);
      } else {
        var r := TightenAll(n.ladders, Ok(n.requirement), policies[0].requirements).value;
        PoliciesKeepSubject(n.(sources := Intersect(n.sources, policies[0].sources), requirement := r), policies[1..]);
      }
    }
  }

  lemma {:induction false} MergedStayKeyed(env: Env, needs: seq<Need>)
    requires MergeInto(needs).Ok? && forall i :: 0 <= i < |needs| ==> needs[i] == Keyed(env, needs[i])
    ensures forall k :: k in MergeInto(needs).value.byKey ==>
              MergeInto(needs).value.byKey[k] == Keyed(env, MergeInto(needs).value.byKey[k])
    decreases |needs|
  {
    hide Tighten;
    if needs != [] {
      MergedStayKeyed(env, needs[..|needs| - 1]);
    }
  }

  lemma MergedDiffer(env: Env, needs: seq<Need>, i: nat, j: nat)
    requires MergeNeeds(needs).Ok? && forall k :: 0 <= k < |needs| ==> needs[k] == Keyed(env, needs[k])
    requires i < j < |MergeNeeds(needs).value|
    ensures DifferentSubjects(MergeNeeds(needs).value[i], MergeNeeds(needs).value[j])
  {
    hide MergeInto, Sort;
    var m := MergeInto(needs).value;
    MergedKeys(needs);
    MergedStayKeyed(env, needs);
    SortedKeysKnown(needs);
    SortKeepsDistinct(m.keys, TextBytes);
  }

  // At most 64 admissions, each of another snapshot.
  lemma AdmissionsWellFormed(env: Env, s: L.State, a: Action, mode: Mode, states: seq<Prepared>, ctx: Context)
    requires AdmitState(env, s, a, mode, states, ctx).Ok?
    ensures var out := AdmitState(env, s, a, mode, states, ctx).value;
            && |out| <= MAX_STATE_BINDINGS
            && forall i, j :: 0 <= i < j < |out| ==> out[i].binding.stateDigest != out[j].binding.stateDigest
  {
    hide AdmitAll, MergeInto, EffectiveNeeds, Sort;
    var raw := env.needs(s, a, mode).value;
    var needs := EffectiveNeeds(env, raw, env.policies(s, a)).value;
    var merged := MergeNeeds(needs).value;
    EffectiveNeedsKeyed(env, raw, env.policies(s, a));
    SortSorts(MergeInto(needs).value.keys, TextBytes);
    var out := AdmitAll(merged, states, ctx).value;
    forall i, j | 0 <= i < j < |out| ensures out[i].binding.stateDigest != out[j].binding.stateDigest {
      MergedDiffer(env, needs, i, j);
      AdmissionsDiffer(merged, states, ctx, i, j);
    }
  }

  lemma {:induction false} ModuleFound(b: Binding, admissions: seq<AdmittedState>, i: nat)
    requires i < |admissions| && admissions[i].binding == b
    ensures ModuleOf(b, admissions).Some?
    decreases |admissions|
  {
    if i > 0 {
      ModuleFound(b, admissions[1..], i - 1);
    }
  }

  lemma {:induction false} ModulesFound(bs: seq<Binding>, admissions: seq<AdmittedState>)
    requires forall i :: 0 <= i < |bs| ==> ModuleOf(bs[i], admissions).Some?
    ensures ModulesOf(bs, admissions).Ok?
    decreases |bs|
  {
    if bs != [] {
      assert forall i :: 0 <= i < |bs[1..]| ==> bs[1..][i] == bs[i + 1];
      ModulesFound(bs[1..], admissions);
    }
  }

  // After a decision's own commit its record always exists: a refusal can only mean nothing was written.
  lemma RecordFollowsCommit(env: Env, s: L.State, req: Request, d: Decision, committed: L.State)
    requires LI.NodesOk(s.principal, s.nodes, s.targets)
    requires Decide(env, s, req) == Ok(d) && L.ApplyBatch(s, [d.event], env.rules) == Ok(committed)
    ensures RecordOf(d, committed).Ok?
  {
    hide Decide, L.ApplyEvents, AdmitState, ReserveFor, LI.NodesOk, L.LineageRefusal, AuthorizationLifetime, ModulesOf, BindingsOf;
    var lineage, cap := DecisionStages(env, s, req);
    DecisionLifetime(env, s, req, d);
    LineageRecorded(s, req.action, req.context.evaluationTime, lineage);
    hide ResolveAuthority, L.LineageIds;
    AdmissionsWellFormed(env, s, req.action, PROPOSE, req.states, req.context);
    BindingsFound(env, d.admissions);
    ModulesFound(d.bindings, d.admissions);
  }

  lemma LineageRecorded(s: L.State, a: Action, t: int, lineage: seq<L.NodeRecord>)
    requires LI.NodesOk(s.principal, s.nodes, s.targets) && ResolveAuthority(s, a, t) == Ok(lineage)
    ensures 1 <= |L.LineageIds(lineage)| <= MAX_LINEAGE_LENGTH && NoRepeats(L.LineageIds(lineage))
  {
    hide LI.NodesOk, L.LineageRefusal;
    LS.LineageDescends(s.principal, s.nodes, s.targets, a.authority, MAX_LINEAGE_LENGTH);
  }

  // In canonical order too, the bindings of different snapshots are different and each has its admission.
  lemma BindingsFound(env: Env, admissions: seq<AdmittedState>)
    requires forall i, j :: 0 <= i < j < |admissions| ==> admissions[i].binding.stateDigest != admissions[j].binding.stateDigest
    ensures NoRepeats(BindingsOf(env, admissions))
    ensures forall i :: 0 <= i < |admissions| ==> ModuleOf(BindingsOf(env, admissions)[i], admissions).Some?
  {
    hide Sort;
    var raw, sorted := AdmittedBindings(admissions), BindingsOf(env, admissions);
    SortKeepsDistinct(raw, env.encodeBinding);
    forall i | 0 <= i < |sorted| ensures ModuleOf(sorted[i], admissions).Some? {
      assert sorted[i] in multiset(sorted);
      var k :| 0 <= k < |raw| && raw[k] == sorted[i];
      ModuleFound(sorted[i], admissions, k);
    }
  }

  // ---- Revalidation never extends --------------------------------------------------------------

  lemma RevalidationBounds(env: Env, s: L.State, r: Record, req: Request, v: Revalidation)
    requires Revalidate(env, s, r, req) == Ok(v) && v.PASSED?
    ensures v.evaluatedAt == req.context.evaluationTime
    ensures v.evaluatedAt < v.validUntil <= r.validUntil
    ensures ActiveReservation(s, r).Ok? && ResolveAuthority(s, r.action, v.evaluatedAt).Ok?
    ensures !v.refreshed ==> v.validUntil == r.validUntil && v.bindings == r.bindings && !NeedsRecheck(r)
    ensures NeedsRecheck(r) ==> v.refreshed
    ensures v.refreshed ==> forall k :: 0 <= k < |AllEnds(v.bindings)| ==> v.validUntil <= AllEnds(v.bindings)[k]
  {
    hide ResolveAuthority, AdmitState, StillAdmitted, ActiveReservation;
  }

  // A failed revalidation names only its own record and the time it was evaluated at.
  lemma RevalidationFails(env: Env, s: L.State, r: Record, req: Request, v: Revalidation)
    requires Revalidate(env, s, r, req) == Ok(v)
    ensures v.evaluatedAt == req.context.evaluationTime
    ensures req.context.evaluationTime >= r.validUntil ==> v.FAILED?
    ensures ResolveAuthority(s, r.action, req.context.evaluationTime).Refused? ==> v.FAILED?
  {
    hide ResolveAuthority, AdmitState, StillAdmitted, ActiveReservation;
  }
}
