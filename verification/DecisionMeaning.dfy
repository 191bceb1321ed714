// Exactly when a decision is reached and an authorization revalidates, over the nodes of the ledger and the snapshots
// admitted (packages/control/src/pipeline.ts:491-616, authorization.ts:140-193, revalidation.ts:101-187).
module DecisionMeaning {
  import opened Common
  import opened Core
  import opened Canonical
  import opened StateAdmission
  import opened StateNeeds
  import opened StateBindings
  import opened Decisions
  import opened Lineages
  import Acceptance
  import Admissibility
  import Charging
  import L = Ledger
  import LI = LedgerInvariant
  import LS = LedgerSafety

  // ---- Authority ---------------------------------------------------------------------------------

  // The action is this principal's, and its actor holds a grant whose whole path to the root is valid.
  predicate ActsBy(s: L.State, a: Action, t: int, path: seq<L.NodeRecord>) {
    a.principal == s.principal && Usable(s, a.authority, path, t) && a.actor == path[0].grant.holder
  }

  lemma AuthorityIs(s: L.State, a: Action, t: int, path: seq<L.NodeRecord>)
    requires LI.NodesOk(s.principal, s.nodes, s.targets)
    ensures ResolveAuthority(s, a, t) == Ok(path) <==> ActsBy(s, a, t, path)
  {
    hide L.ResolveLineage, L.LineageRefusal, Usable, LI.NodesOk;
    UsableIs(s, a.authority, path, t);
    if ActsBy(s, a, t, path) {
      Charging.HasPolicy(s, a.authority, path, t);
    }
  }

  // ---- Ends --------------------------------------------------------------------------------------

  // A binding that must hold until execution bounds it by its age and by its declared end.
  predicate HoldsUntil(b: Binding, t: int) {
    b.requirement.atExecution.BOUNDED_BY_FRESHNESS? ==>
      && (b.requirement.freshness.AGE? ==> t <= b.observedAt + b.requirement.freshness.maxAgeSeconds)
      && (b.requirement.freshness.VERSION? ==> t <= b.observedAt + b.requirement.freshness.maxAge)
      && (b.validUntil.Some? ==> t <= b.validUntil.value)
  }

  predicate AllHoldUntil(bs: seq<Binding>, t: int) {
    forall i :: 0 <= i < |bs| ==> HoldsUntil(bs[i], t)
  }

  predicate NoneBefore(ends: seq<int>, t: int) {
    forall k :: 0 <= k < |ends| ==> t <= ends[k]
  }

  lemma {:induction false} EndsAre(bs: seq<Binding>, t: int)
    ensures AllHoldUntil(bs, t) <==> NoneBefore(AllEnds(bs), t)
    decreases |bs|
  {
    if bs != [] {
      var front, last := bs[..|bs| - 1], bs[|bs| - 1];
      EndsAre(front, t);
      EndsOne(last, t);
      BothParts(AllEnds(bs), AllEnds(front), Ends(last), t);
      assert AllHoldUntil(bs, t) <==> AllHoldUntil(front, t) && HoldsUntil(last, t);
    }
  }

  lemma EndsOne(b: Binding, t: int)
    ensures HoldsUntil(b, t) <==> NoneBefore(Ends(b), t)
  {
    var more := Ends(b);
    if b.requirement.atExecution.BOUNDED_BY_FRESHNESS? {
      assert MaxAge(b.requirement.freshness).Some? ==> more[0] == b.observedAt + MaxAge(b.requirement.freshness).value;
      assert b.validUntil.Some? ==> more[|more| - 1] == b.validUntil.value;
    }
  }

  lemma BothParts(all: seq<int>, a: seq<int>, b: seq<int>, t: int)
    requires all == a + b
    ensures NoneBefore(all, t) <==> NoneBefore(a, t) && NoneBefore(b, t)
  {
    if NoneBefore(all, t) {
      forall k | 0 <= k < |b| ensures t <= b[k] {
        assert all[|a| + k] == b[k];
      }
      forall k | 0 <= k < |a| ensures t <= a[k] {
        assert all[k] == a[k];
      }
    }
  }

  lemma {:induction false} LineageEndIs(path: seq<L.NodeRecord>, t: int)
    requires path != []
    ensures t <= LineageEnd(path) <==> forall i :: 0 <= i < |path| ==> t <= path[i].grant.expiresAt
    decreases |path|
  {
    if |path| > 1 {
      var rest := path[1..];
      assert forall i :: 0 <= i < |rest| ==> rest[i] == path[i + 1];
      LineageEndIs(rest, t);
      if t <= LineageEnd(path) {
        forall i | 0 <= i < |path| ensures t <= path[i].grant.expiresAt {
          assert i > 0 ==> path[i] == rest[i - 1];
        }
      }
    }
  }

  // Everything a decision rests on still holds at `t`.
  predicate Outlasts(a: Action, path: seq<L.NodeRecord>, cap: Option<int>, bs: seq<Binding>, t: int) {
    && t <= a.expiresAt && (forall i :: 0 <= i < |path| ==> t <= path[i].grant.expiresAt)
    && (cap.Some? ==> t <= cap.value) && AllHoldUntil(bs, t)
  }

  lemma LifetimeIs(a: Action, path: seq<L.NodeRecord>, cap: Option<int>, bs: seq<Binding>, t: int)
    requires path != []
    ensures t <= AuthorizationLifetime(a.expiresAt, LineageEnd(path), cap, bs) <==> Outlasts(a, path, cap, bs, t)
  {
    hide AuthorizationLifetime, LineageEnd, AllEnds;
    AuthorizationLifetimeIsGlb(a.expiresAt, LineageEnd(path), cap, bs, t);
    EndsAre(bs, t);
    LineageEndIs(path, t);
  }

  // ---- The decision ------------------------------------------------------------------------------

  predicate Timely(req: Request) {
    var a, t := req.action, req.context.evaluationTime;
    INT64_MIN <= t <= INT64_MAX && INT64_MIN <= a.validFrom <= t < a.expiresAt <= INT64_MAX
  }

  function PlanFor(env: Env, req: Request, contributions: seq<L.Contribution>): L.Plan {
    var a := req.action;
    L.Plan(a.principal, a.authority, a.actor, a.id, req.generation, a.moduleRef, env.implementation(a.moduleRef), contributions)
  }

  datatype Basis = Basis(path: seq<L.NodeRecord>, cap: Option<int>, admissions: seq<AdmittedState>, contributions: seq<L.Contribution>, event: L.Event)

  // All a decision needs: a timely action on a module that decides, of the payload it names, under a valid path; state
  // admitted, invariants holding over it; and a reservation of its demands the ledger would accept.
  ghost predicate Decidable(env: Env, s: L.State, req: Request, b: Basis) {
    var a, t := req.action, req.context.evaluationTime;
    && Timely(req) && req.generation >= 1 && env.decidable(a.moduleRef) && req.payloadDigest == a.payloadDigest
    && ActsBy(s, a, t, b.path) && env.analyse(s, a, t) == Ok(b.cap)
    && AdmitState(env, s, a, PROPOSE, req.states, req.context) == Ok(b.admissions)
    && env.verdict(s, a, PROPOSE, b.admissions) == Ok(true)
    && env.demands(s, a, b.admissions) == Ok(b.contributions)
    && Charging.WellMade(PlanFor(env, req, b.contributions)) && env.conforms(a.moduleRef, env.implementation(a.moduleRef))
    && b.event.Reserve? && b.event.at == t && b.event.plan == PlanFor(env, req, b.contributions)
    && Acceptance.InTime(s, t) && s.version < UINT64_MAX && Charging.ReserveAcceptable(s, b.event, b.path)
    && Outlasts(a, b.path, b.cap, BindingsOf(env, b.admissions), t + 1)
  }

  // What the decision says of it.
  predicate Describes(env: Env, s: L.State, req: Request, b: Basis, d: Decision) {
    && d.version == s.version && d.head == s.head && d.evaluatedAt == req.context.evaluationTime
    && d.action == req.action && d.generation == req.generation
    && |d.lineage| == |b.path| && (forall i :: 0 <= i < |b.path| ==> d.lineage[i] == b.path[i].id)
    && s.policy.Some? && d.policy == s.policy.value.id
    && d.admissions == b.admissions && d.bindings == BindingsOf(env, b.admissions) && d.event == b.event
    && Outlasts(req.action, b.path, b.cap, d.bindings, d.validUntil) && !Outlasts(req.action, b.path, b.cap, d.bindings, d.validUntil + 1)
  }

  // The ledger accepts exactly one reservation of a plan along a path: the one it derives.
  lemma ReserveForIs(env: Env, s: L.State, req: Request, path: seq<L.NodeRecord>, admissions: seq<AdmittedState>)
    requires LI.Inv(s) && ActsBy(s, req.action, req.context.evaluationTime, path)
    requires env.demands(s, req.action, admissions).Ok?
    ensures var contributions := env.demands(s, req.action, admissions).value;
            var r := ReserveFor(env, s, req.action, req.generation, admissions, req.context.evaluationTime);
            && (r.Ok? ==> ReserveReady(env, s, req, contributions, path, r.value))
            && forall e :: ReserveReady(env, s, req, contributions, path, e) ==> r == Ok(e)
  {
    hide L.DeriveReservation, L.ApplyBatch, LI.Inv, ActsBy, ReserveReady;
    var a, t := req.action, req.context.evaluationTime;
    var contributions := env.demands(s, a, admissions).value;
    var plan := PlanFor(env, req, contributions);
    assert PlanOf(env, a, req.generation, contributions) == plan;
    if L.DeriveReserveEvent(s, plan, t).Ok? {
      DerivedReady(env, s, req, contributions, path);
    }
    forall e | ReserveReady(env, s, req, contributions, path, e) ensures ReserveFor(env, s, a, req.generation, admissions, t) == Ok(e) {
      ReadyDerived(env, s, req, contributions, path, e);
    }
  }

  ghost predicate ReserveReady(env: Env, s: L.State, req: Request, contributions: seq<L.Contribution>, path: seq<L.NodeRecord>, e: L.Event) {
    var a, t := req.action, req.context.evaluationTime;
    && Charging.WellMade(PlanFor(env, req, contributions)) && env.conforms(a.moduleRef, env.implementation(a.moduleRef))
    && e.Reserve? && e.at == t && e.plan == PlanFor(env, req, contributions)
    && Acceptance.InTime(s, t) && s.version < UINT64_MAX && Charging.ReserveAcceptable(s, e, path)
  }

  lemma BatchOfOne(s: L.State, e: L.Event, rules: L.Rules)
    ensures L.ApplyBatch(s, [e], rules).Ok? <==> L.ApplyEvent(s, e, s.version + 1, rules).Ok? && s.version < UINT64_MAX
  {
    hide L.ApplyEvent;
    assert [e][1..] == [] && [e][0] == e;
    var first := L.ApplyEvent(s, e, s.version + 1, rules);
    if first.Ok? {
      assert L.ApplyEvents(first.value, [], s.version + 1, rules) == first;
    }
    assert L.ApplyEvents(s, [e], s.version + 1, rules) == first;
  }

  // Two usable paths of one grant are one path.
  lemma OnePath(s: L.State, leaf: L.AuthorityId, p: seq<L.NodeRecord>, q: seq<L.NodeRecord>, t: int)
    requires LI.NodesOk(s.principal, s.nodes, s.targets) && Usable(s, leaf, p, t) && Usable(s, leaf, q, t)
    ensures p == q
  {
    hide LI.NodesOk, L.ResolveLineage, Usable, L.LineageRefusal;
    UsableIs(s, leaf, p, t);
    UsableIs(s, leaf, q, t);
  }

  lemma DerivedReady(env: Env, s: L.State, req: Request, contributions: seq<L.Contribution>, path: seq<L.NodeRecord>)
    requires LI.Inv(s) && ActsBy(s, req.action, req.context.evaluationTime, path)
    requires L.DeriveReserveEvent(s, PlanFor(env, req, contributions), req.context.evaluationTime).Ok?
    ensures var e := L.DeriveReserveEvent(s, PlanFor(env, req, contributions), req.context.evaluationTime).value;
            var sound := Charging.WellMade(PlanFor(env, req, contributions)) && env.conforms(req.action.moduleRef, env.implementation(req.action.moduleRef));
            sound && L.ApplyBatch(s, [e], env.rules).Ok? ==> ReserveReady(env, s, req, contributions, path, e)
  {
    hide LI.Inv, L.ApplyEvent, Usable, Charging.WellMade, L.DeriveReservation;
    var plan, t := PlanFor(env, req, contributions), req.context.evaluationTime;
    var e := L.DeriveReserveEvent(s, plan, t).value;
    BatchOfOne(s, e, env.rules);
    if L.ApplyBatch(s, [e], env.rules).Ok? {
      InvParts(s);
      Charging.ReserveExactly(s, e, s.version + 1, env.rules);
      var other :| Charging.ReserveAcceptable(s, e, other);
      OnePath(s, plan.authority, path, other, t);
    }
  }

  lemma InvParts(s: L.State)
    requires LI.Inv(s)
    ensures LI.NodesOk(s.principal, s.nodes, s.targets) && LI.PolicyOk(s.policy, s.targets)
  {
    hide LI.NodesOk, LI.TargetsOk, LI.PolicyOk, LI.SumsOk, LI.EpochsOk, LI.LimitsOk, LI.ActionsOk, LI.AttemptsOk, LI.ReservationsOk;
  }

  lemma ReadyDerived(env: Env, s: L.State, req: Request, contributions: seq<L.Contribution>, path: seq<L.NodeRecord>, e: L.Event)
    requires LI.Inv(s) && ActsBy(s, req.action, req.context.evaluationTime, path) && ReserveReady(env, s, req, contributions, path, e)
    ensures var plan := PlanFor(env, req, contributions);
            && L.ValidPlan(plan) && env.conforms(plan.moduleRef, plan.implementation)
            && L.DeriveReserveEvent(s, plan, req.context.evaluationTime) == Ok(e) && L.ApplyBatch(s, [e], env.rules).Ok?
  {
    hide LI.Inv, L.ApplyEvent, Usable, L.DeriveReservation, Charging.Reservable, Charging.Restates, Charging.Fits, Charging.LegsOf, L.AllEventLegs,
      Charging.AreAllLegs, L.LineageIds;
    InvParts(s);
    Charging.ReserveExactly(s, e, s.version + 1, env.rules);
    BatchOfOne(s, e, env.rules);
    Charging.DerivesExactly(s, e.plan, e.at, path);
    var legs := Charging.LegsOf(s, e.plan, path, e.at);
    Charging.LegsCount(s, e, path, legs);
    Charging.RestatesIs(s, e, path, legs);
  }

  // A decision is reached exactly when all it needs holds, and it says exactly that, until the first of its ends.
  lemma DecidesExactly(env: Env, s: L.State, req: Request)
    requires LI.Inv(s)
    ensures Decide(env, s, req).Ok? <==> exists b :: Decidable(env, s, req, b)
    ensures Decide(env, s, req).Ok? ==> exists b :: Decidable(env, s, req, b) && Describes(env, s, req, b, Decide(env, s, req).value)
  {
    hide Decidable, Decide, Describes;
    if Decide(env, s, req).Ok? {
      var b := DecisionBasis(env, s, req, Decide(env, s, req).value);
    }
    if exists b :: Decidable(env, s, req, b) {
      var b :| Decidable(env, s, req, b);
      BasisDecides(env, s, req, b);
    }
  }

  lemma NeedsDemands(env: Env, s: L.State, a: Action, generation: int, admissions: seq<AdmittedState>, t: int)
    requires ReserveFor(env, s, a, generation, admissions, t).Ok?
    ensures env.demands(s, a, admissions).Ok?
  {
  }

  lemma DecisionBasis(env: Env, s: L.State, req: Request, d: Decision) returns (b: Basis)
    requires LI.Inv(s) && Decide(env, s, req) == Ok(d)
    ensures Decidable(env, s, req, b) && Describes(env, s, req, b, d)
  {
    hide LI.Inv, AdmitState, ReserveFor, ResolveAuthority, LineageEnd, AuthorizationLifetime, ActsBy, BindingsOf, Outlasts,
      Charging.ReserveAcceptable, Charging.WellMade;
    InvParts(s);
    var a, t := req.action, req.context.evaluationTime;
    var path, cap := DecisionStages(env, s, req);
    AuthorityIs(s, a, t, path);
    NeedsDemands(env, s, a, req.generation, d.admissions, t);
    ReserveForIs(env, s, req, path, d.admissions);
    LifetimeIs(a, path, cap, d.bindings, d.validUntil);
    LifetimeIs(a, path, cap, d.bindings, d.validUntil + 1);
    LifetimeIs(a, path, cap, d.bindings, t + 1);
    b := Basis(path, cap, d.admissions, env.demands(s, a, d.admissions).value, d.event);
  }

  lemma BasisDecides(env: Env, s: L.State, req: Request, b: Basis)
    requires LI.Inv(s) && Decidable(env, s, req, b)
    ensures Decide(env, s, req).Ok?
  {
    hide LI.Inv, AdmitState, ReserveFor, ResolveAuthority, LineageEnd, AuthorizationLifetime, BindingsOf, Outlasts, Usable,
      Charging.ReserveAcceptable, Charging.WellMade;
    InvParts(s);
    var a, t := req.action, req.context.evaluationTime;
    AuthorityIs(s, a, t, b.path);
    ReserveForIs(env, s, req, b.path, b.admissions);
    Charging.HasPolicy(s, a.authority, b.path, t);
    LifetimeIs(a, b.path, b.cap, BindingsOf(env, b.admissions), t + 1);
    assert ReserveReady(env, s, req, b.contributions, b.path, b.event);
  }

  // ---- Admitted state ----------------------------------------------------------------------------

  // Every admitted snapshot is the one answer to its need and meets it now: its source configured for it, of the class it
  // claims, trusted, fresh and final enough.
  lemma StatesMeet(env: Env, s: L.State, a: Action, mode: Mode, states: seq<Prepared>, ctx: Context, i: nat)
    requires AdmitState(env, s, a, mode, states, ctx).Ok? && i < |AdmitState(env, s, a, mode, states, ctx).value|
    ensures var x := AdmitState(env, s, a, mode, states, ctx).value[i];
            && Admissibility.AdmittedAs(x.need, states, ctx, x)
            && x.envelope.trustClass == ctx.sources[x.envelope.sourceId].trustClass
  {
    hide EffectiveNeeds, MergeNeeds, AdmitAll, Admissibility.AdmittedAs;
    var raw := env.needs(s, a, mode).value;
    var merged := MergeNeeds(EffectiveNeeds(env, raw, env.policies(s, a)).value).value;
    var out := AdmitAll(merged, states, ctx).value;
    Admissibility.AdmitsEach(merged, states, ctx, out);
    assert Admissibility.AdmittedAs(merged[i], states, ctx, out[i]);
    OwnNeed(merged[i], states, ctx, out[i]);
  }

  lemma OwnNeed(n: Need, states: seq<Prepared>, ctx: Context, x: AdmittedState)
    requires Admissibility.AdmittedAs(n, states, ctx, x)
    ensures x.need == n && x.envelope.sourceId in ctx.sources && x.envelope.trustClass == ctx.sources[x.envelope.sourceId].trustClass
  {
  }

  // Needs are made effective one by one, each under its own key.
  lemma {:induction false} EffectiveEach(env: Env, needs: seq<Need>, policies: seq<StatePolicy>, out: seq<Need>)
    ensures EffectiveNeeds(env, needs, policies) == Ok(out) <==>
              && |out| == |needs|
              && forall i :: 0 <= i < |needs| ==>
                   EffectiveNeed(needs[i].(key := env.needKey(needs[i].moduleRef, needs[i].stateKind, needs[i].subject)), policies) == Ok(out[i])
    decreases |needs|
  {
    hide EffectiveNeed;
    if needs != [] {
      if |out| == |needs| {
        EffectiveEach(env, needs[1..], policies, out[1..]);
        assert out == [out[0]] + out[1..];
        assert forall i :: 0 < i < |needs| ==> needs[i] == needs[1..][i - 1] && out[i] == out[1..][i - 1];
      }
      if EffectiveNeeds(env, needs[1..], policies).Ok? {
        EffectiveEach(env, needs[1..], policies, EffectiveNeeds(env, needs[1..], policies).value);
      }
    }
  }

  // The bindings are those of the admissions, each as often, in the order of their bytes.
  lemma BindingsAre(env: Env, admissions: seq<AdmittedState>)
    ensures |BindingsOf(env, admissions)| == |admissions| && NonDescending(BindingsOf(env, admissions), env.encodeBinding)
    ensures multiset(BindingsOf(env, admissions)) == multiset(seq(|admissions|, i requires 0 <= i < |admissions| => admissions[i].binding))
  {
    hide Sort;
    SortSorts(AdmittedBindings(admissions), env.encodeBinding);
    assert AdmittedBindings(admissions) == seq(|admissions|, i requires 0 <= i < |admissions| => admissions[i].binding);
  }

  // ---- The record --------------------------------------------------------------------------------

  // What the record keeps of the decision it was built from.
  predicate Records(d: Decision, committed: L.State, r: Record) {
    && r.action == d.action && r.reservation == L.ReservationId(d.action.id, d.generation) && r.generation == d.generation
    && r.lineage == d.lineage && r.bindings == d.bindings && r.evaluatedAt == d.evaluatedAt && r.validUntil == d.validUntil
    && r.versionRead == d.version && r.versionCommitted == committed.version == d.version + 1
    && r.executionId == Keccak([Text("execution"), d.action.id, Number(d.generation), Number(d.validUntil)])
    && r.id == Keccak([Text("authorization"), r.executionId, Number(d.version), Number(d.evaluatedAt)])
    && |r.bindingModules| == |r.bindings|
    && forall i :: 0 <= i < |r.bindings| ==> AdmittedBy(d.admissions, r.bindings[i].stateDigest, r.bindingModules[i])
  }

  // A snapshot was admitted for a need of that module.
  predicate AdmittedBy(admissions: seq<AdmittedState>, e: Envelope, m: ModuleRef) {
    exists k :: 0 <= k < |admissions| && admissions[k].binding.stateDigest == e && admissions[k].need.moduleRef == m
  }

  lemma {:induction false} ModuleIs(b: Binding, admissions: seq<AdmittedState>)
    requires ModuleOf(b, admissions).Some?
    ensures AdmittedBy(admissions, b.stateDigest, ModuleOf(b, admissions).value)
    decreases |admissions|
  {
    if admissions[0].binding.stateDigest != b.stateDigest {
      ModuleIs(b, admissions[1..]);
      var k :| 0 <= k < |admissions[1..]| && admissions[1..][k].binding.stateDigest == b.stateDigest
               && admissions[1..][k].need.moduleRef == ModuleOf(b, admissions).value;
      assert admissions[k + 1] == admissions[1..][k];
    }
  }

  lemma {:induction false} ModulesAre(bs: seq<Binding>, admissions: seq<AdmittedState>)
    requires ModulesOf(bs, admissions).Ok?
    ensures var ms := ModulesOf(bs, admissions).value;
            |ms| == |bs| && forall i :: 0 <= i < |bs| ==> AdmittedBy(admissions, bs[i].stateDigest, ms[i])
    decreases |bs|
  {
    hide AdmittedBy;
    if bs != [] {
      ModuleIs(bs[0], admissions);
      ModulesAre(bs[1..], admissions);
      assert forall i :: 0 < i < |bs| ==> bs[i] == bs[1..][i - 1];
    }
  }

  lemma RecordIs(d: Decision, committed: L.State, r: Record)
    requires RecordOf(d, committed) == Ok(r)
    ensures Records(d, committed, r)
  {
    hide ModulesOf;
    ModulesAre(d.bindings, d.admissions);
  }

  // ---- Revalidation ------------------------------------------------------------------------------

  // The record's reservation is open, and has its generation, action and module.
  predicate StillHeld(s: L.State, r: Record) {
    && r.reservation in s.reservations
    && var x := s.reservations[r.reservation];
       x.generation == r.generation && x.action == r.action.id && x.moduleRef == r.action.moduleRef && x.status.ACTIVE?
  }

  // A binding as it is observed again: by itself, with its own source as the one admitted.
  function Again(b: Binding, domain: string): Observed {
    Observed(domain, b.stateKind, b.subject, b.sourceId, b.trustClass, b.observedAt, b.validUntil, b.sequence, b.finality, None)
  }

  // Every binding is admissible again now, under the module that asked for it, and none asks to be checked anew.
  ghost predicate AllReadmit(env: Env, r: Record, ctx: Context) {
    && |r.bindings| == |r.bindingModules|
    && forall i :: 0 <= i < |r.bindings| ==> BindingReadmits(env, r.bindings[i], r.bindingModules[i], ctx)
  }

  ghost predicate BindingReadmits(env: Env, b: Binding, m: ModuleRef, ctx: Context) {
    && b.requirement.atIssue.WITHIN_POLICY? && env.lifecycle(m)
    && Admissibility.Meets(Again(b, m.domainId), b.requirement, [b.sourceId], env.ladders(m), ctx)
  }

  // Asked properly: of the active reservation, with the payload it was authorized for.
  predicate Askable(s: L.State, r: Record, req: Request) {
    StillHeld(s, r) && INT64_MIN <= req.context.evaluationTime <= INT64_MAX && req.payloadDigest == r.action.payloadDigest
  }

  // The authorization itself stands: not over, its actor's path still valid, its module still served.
  ghost predicate Stands(env: Env, s: L.State, r: Record, t: int) {
    t < r.validUntil && (exists path :: ActsBy(s, r.action, t, path)) && env.lifecycle(r.action.moduleRef)
  }

  // Fresh state admitted and every invariant holding over it, with something of the lifetime left.
  ghost predicate Refreshes(env: Env, s: L.State, r: Record, req: Request, admissions: seq<AdmittedState>) {
    && AdmitState(env, s, r.action, REVALIDATE, req.states, req.context) == Ok(admissions)
    && env.verdict(s, r.action, REVALIDATE, admissions) == Ok(true)
    && req.context.evaluationTime < r.validUntil && AllHoldUntil(BindingsOf(env, admissions), req.context.evaluationTime + 1)
  }

  predicate FirstEnd(bs: seq<Binding>, end: int, t: int) {
    t <= end && AllHoldUntil(bs, t) && !(t + 1 <= end && AllHoldUntil(bs, t + 1))
  }

  // What a passed revalidation says.
  ghost predicate PassedAs(env: Env, s: L.State, r: Record, req: Request, v: Revalidation) {
    && v.PASSED? && v.evaluatedAt == req.context.evaluationTime && (v.refreshed <==> !AllReadmit(env, r, req.context))
    && v.id == Keccak([Text("revalidation"), r.id, Number(s.version), Number(v.evaluatedAt), Number(1),
                       Text(if v.refreshed then "REFRESHED" else "READMITTED")])
    && (!v.refreshed ==> v.bindings == r.bindings && v.validUntil == r.validUntil)
    && (v.refreshed ==> exists admissions :: Refreshes(env, s, r, req, admissions)
                          && v.bindings == BindingsOf(env, admissions) && FirstEnd(v.bindings, r.validUntil, v.validUntil))
  }

  lemma LifetimeOfIs(bs: seq<Binding>, end: int, t: int)
    ensures t <= LifetimeOf(bs, end) <==> t <= end && AllHoldUntil(bs, t)
  {
    hide AllEnds;
    var ends := AllEnds(bs);
    EndsAre(bs, t);
    var r := Earliest(end, ends);
    if r != end {
      var k :| 0 <= k < |ends| && ends[k] == r;
    }
  }

  lemma ReadmitIs(env: Env, r: Record, ctx: Context)
    ensures AllReadmit(env, r, ctx) <==> !NeedsRecheck(r) && StillAdmitted(env, r, ctx)
  {
    hide Assess, Admissibility.Meets;
    if |r.bindings| == |r.bindingModules| {
      forall i | 0 <= i < |r.bindings|
        ensures BindingReadmits(env, r.bindings[i], r.bindingModules[i], ctx) <==>
                  && !r.bindings[i].requirement.atIssue.RECHECK? && env.lifecycle(r.bindingModules[i])
                  && Readmit(r.bindings[i], r.bindingModules[i].domainId, env.ladders(r.bindingModules[i]), ctx).None?
      {
        var b, m := r.bindings[i], r.bindingModules[i];
        Admissibility.AssessExactly(Again(b, m.domainId), b.requirement, [b.sourceId], env.ladders(m), ctx);
      }
      hide BindingReadmits, Readmit;
      if AllReadmit(env, r, ctx) {
        forall i | 0 <= i < |r.bindings| ensures !r.bindings[i].requirement.atIssue.RECHECK? {
          assert BindingReadmits(env, r.bindings[i], r.bindingModules[i], ctx);
        }
      }
    }
  }

  // A revalidation is refused exactly when it is not asked properly; otherwise it passes exactly when the authorization
  // stands and its bindings either all re-admit as they are or are replaced by fresh ones, and says which.
  lemma RevalidatesExactly(env: Env, s: L.State, r: Record, req: Request)
    requires LI.NodesOk(s.principal, s.nodes, s.targets)
    ensures Revalidate(env, s, r, req).Ok? <==> Askable(s, r, req)
    ensures Revalidate(env, s, r, req).Ok? ==>
              var v := Revalidate(env, s, r, req).value;
              && (v.PASSED? <==> Stands(env, s, r, req.context.evaluationTime)
                                 && (AllReadmit(env, r, req.context) || exists admissions :: Refreshes(env, s, r, req, admissions)))
              && (v.PASSED? ==> PassedAs(env, s, r, req, v))
              && v.evaluatedAt == req.context.evaluationTime
              && (v.FAILED? ==> v.id == Keccak([Text("revalidation"), r.id, Number(s.version), Number(v.evaluatedAt), Number(0), Text(v.code)]))
  {
    hide ResolveAuthority, AdmitState, StillAdmitted, NeedsRecheck, AllReadmit, BindingsOf, LifetimeOf, AllHoldUntil, ActsBy;
    var t := req.context.evaluationTime;
    var found := ResolveAuthority(s, r.action, t);
    forall path ensures found == Ok(path) <==> ActsBy(s, r.action, t, path) {
      AuthorityIs(s, r.action, t, path);
    }
    assert found.Ok? <==> exists path :: ActsBy(s, r.action, t, path) by {
      if found.Ok? {
        assert ActsBy(s, r.action, t, found.value);
      }
    }
    ReadmitIs(env, r, req.context);
    var renewed := AdmitState(env, s, r.action, REVALIDATE, req.states, req.context);
    if renewed.Ok? {
      var bs := BindingsOf(env, renewed.value);
      LifetimeOfIs(bs, r.validUntil, t + 1);
      LifetimeOfIs(bs, r.validUntil, LifetimeOf(bs, r.validUntil));
      LifetimeOfIs(bs, r.validUntil, LifetimeOf(bs, r.validUntil) + 1);
      assert env.verdict(s, r.action, REVALIDATE, renewed.value) == Ok(true) && t < LifetimeOf(bs, r.validUntil) ==>
               Refreshes(env, s, r, req, renewed.value);
    }
  }
}
