// Exactly when a reservation, an accounting entry or an attempt is accepted, and exactly what each changes
// (packages/ledger/src/reducer.ts:240-455, charging.ts:104-188, state.ts:250-282, attempt.ts:214-280).
module Charging {
  import opened Common
  import opened Core
  import opened Decimals
  import opened Ledger
  import opened Charges
  import opened LedgerInvariant
  import opened LedgerReserve
  import opened Lineages
  import opened Acceptance
  import LA = LedgerAccounting
  import LS = LedgerSafety

  // ---- What is left of a limit -------------------------------------------------------------------

  // What is available at a target is its limit less everything held and used there: for good, net of what was restored,
  // or, for a budget renewed in windows, in the current window alone.
  lemma AvailableIs(s: State, key: TargetKey, at: int, n: int)
    requires Inv(s) && InTime(s, at) && key in s.targets
    ensures var b := s.targets[key];
            var limit, held, used := b.dimension.limit.atoms, Total(s.reservations, Outstanding, key), Total(s.reservations, Consumed, key);
            && (b.dimension.restoration.NONE? ==> AvailableOf(b, at) == limit - held - used)
            && (b.dimension.accounting.CAPACITY? ==> AvailableOf(b, at) == limit - held - used + Total(s.reservations, Restored, key))
            && (b.dimension.restoration.EPOCH? && LS.InWindow(b.dimension, at, n) ==>
                  AvailableOf(b, at) == limit - held - Total(s.reservations, ConsumedIn(n), key))
  {
    hide NodesOk, PolicyOk, LimitsOk, ActionsOk, AttemptsOk, ReservationsOk, Total, LS.InWindow, EpochIndex;
    var b := s.targets[key];
    assert Balanced(b, s.reservations, key) && TargetOk(s.nodes, key, b);
    if b.dimension.restoration.EPOCH? && LS.InWindow(b.dimension, at, n) {
      WindowNumber(b.dimension, at, n);
      var used := ConsumedPerEpoch(s.reservations, key);
      assert used(n) == Total(s.reservations, ConsumedIn(n), key);
      if b.epochConsumed.Some? {
        EpochsLater(s.targets, s.lastAt, at);
        assert EpochPast(b, at);
      }
    }
  }

  lemma WindowNumber(d: Dimension, at: int, n: int)
    requires ValidDimension(d) && d.restoration.EPOCH? && LS.InWindow(d, at, n)
    ensures EpochIndex(d, at) == Some(n)
  {
    hide ValidResource, ValidIdentifier, ValidUnit;
    var a, k := d.epoch.value.anchor, d.epoch.value.lengthSeconds;
    MulMonotone(0, n, k);
    LS.WindowIs(d, at);
    var m := EpochIndex(d, at).value;
    if m < n {
      MulMonotone(m + 1, n, k);
    } else if m > n {
      MulMonotone(n + 1, m, k);
    }
  }

  // ---- Reserving ---------------------------------------------------------------------------------

  // A grant names the exact module among those it allows.
  predicate NamesModule(terms: seq<Term>, m: ModuleRef) {
    exists i :: 0 <= i < |terms| && terms[i].SetTerm? && terms[i].members.MODULES? && m in terms[i].members.modules
  }

  predicate WellMade(plan: Plan) {
    && 1 <= |plan.contributions| <= MAX_PLAN_CONTRIBUTIONS && 1 <= plan.generation
    && forall i :: 0 <= i < |plan.contributions| ==>
         0 < plan.contributions[i].quantity.atoms && plan.contributions[i].quantity.decimals <= MAX_DECIMALS
  }

  // The next generation of the action: the first, or the one after a closed one.
  predicate NextGeneration(s: State, plan: Plan) {
    if plan.action in s.actions then s.actions[plan.action].open.None? && plan.generation == s.actions[plan.action].lastGeneration + 1
    else plan.generation == 1
  }

  // The plan may be charged along this path.
  ghost predicate Reservable(s: State, plan: Plan, path: seq<NodeRecord>, at: int) {
    && plan.principal == s.principal && Usable(s, plan.authority, path, at)
    && plan.actor == path[0].grant.holder
    && (forall k :: 0 <= k < |path| ==> NamesModule(path[k].grant.terms, plan.moduleRef))
    && ReservationId(plan.action, plan.generation) !in s.reservations && NextGeneration(s, plan)
    && forall i :: 0 <= i < |plan.contributions| ==> Holdable(path, s.policy.value, plan.contributions[i], plan.moduleRef.domainId, at)
  }

  // Every dimension of the path a contribution falls under can be charged, and a required one falls under a granted one.
  ghost predicate Holdable(path: seq<NodeRecord>, policy: PolicyRecord, c: Contribution, domain: string, at: int) {
    && LS.AllListsChargeable(LS.PathDimensions(path, policy), c, domain, at)
    && (c.required ==> LS.HeldByLineage(path, c, domain))
  }

  ghost predicate AreLegs(path: seq<NodeRecord>, policy: PolicyRecord, c: Contribution, domain: string, at: int, ls: seq<LegDraft>, places: seq<LS.Place>) {
    && |places| == |ls| && LS.Places(LS.PathDimensions(path, policy), c, domain, places)
    && forall i :: 0 <= i < |ls| ==> LS.PathLegIs(path, policy, ls[i], c, domain, places[i], at)
  }

  ghost predicate AreTheLegs(path: seq<NodeRecord>, policy: PolicyRecord, c: Contribution, domain: string, at: int, ls: seq<LegDraft>) {
    exists places :: AreLegs(path, policy, c, domain, at, ls, places)
  }

  // One leg list per contribution, each exactly what its path demands.
  ghost predicate AreAllLegs(path: seq<NodeRecord>, policy: PolicyRecord, cs: seq<Contribution>, domain: string, at: int, legs: seq<seq<LegDraft>>) {
    |legs| == |cs| && forall i :: 0 <= i < |cs| ==> AreTheLegs(path, policy, cs[i], domain, at, legs[i])
  }

  lemma {:induction false} AllLegsExact(path: seq<NodeRecord>, policy: PolicyRecord, cs: seq<Contribution>, domain: string, at: int)
    requires LS.ValidPathTerms(path) && ValidTerms(policy.policy.terms)
    ensures DeriveLegs(path, policy, cs, domain, at).Ok? <==> forall i :: 0 <= i < |cs| ==> Holdable(path, policy, cs[i], domain, at)
    ensures DeriveLegs(path, policy, cs, domain, at).Ok? ==> AreAllLegs(path, policy, cs, domain, at, DeriveLegs(path, policy, cs, domain, at).value)
    decreases |cs|
  {
    hide ContributionLegs, AreLegs, LS.ValidPathTerms, ValidTerms, LS.AllListsChargeable, LS.HeldByLineage, LS.Places, LS.PathLegIs;
    if cs != [] {
      var rest := cs[1..];
      assert forall i :: 0 <= i < |rest| ==> rest[i] == cs[i + 1];
      var places := LS.LegsAreExact(path, policy, cs[0], domain, at);
      AllLegsExact(path, policy, rest, domain, at);
      var first := ContributionLegs(path, policy, cs[0], domain, at);
      assert first.Ok? <==> Holdable(path, policy, cs[0], domain, at);
      if forall i :: 0 <= i < |cs| ==> Holdable(path, policy, cs[i], domain, at) {
        forall i | 0 <= i < |rest| ensures Holdable(path, policy, rest[i], domain, at) {
          assert Holdable(path, policy, cs[i + 1], domain, at);
        }
      }
      if DeriveLegs(path, policy, cs, domain, at).Ok? {
        LegsCons(path, policy, cs, domain, at, first.value, DeriveLegs(path, policy, rest, domain, at).value, places);
        forall i | 0 <= i < |cs| ensures Holdable(path, policy, cs[i], domain, at) {
          assert i > 0 ==> Holdable(path, policy, rest[i - 1], domain, at);
        }
      }
    }
  }

  lemma LegsCons(path: seq<NodeRecord>, policy: PolicyRecord, cs: seq<Contribution>, domain: string, at: int,
                 first: seq<LegDraft>, rest: seq<seq<LegDraft>>, places: seq<LS.Place>)
    requires cs != [] && |places| == |first| && LS.Places(LS.PathDimensions(path, policy), cs[0], domain, places)
    requires forall i :: 0 <= i < |first| ==> LS.PathLegIs(path, policy, first[i], cs[0], domain, places[i], at)
    requires AreAllLegs(path, policy, cs[1..], domain, at, rest)
    ensures AreAllLegs(path, policy, cs, domain, at, [first] + rest)
  {
    assert AreLegs(path, policy, cs[0], domain, at, first, places);
    assert AreTheLegs(path, policy, cs[0], domain, at, first);
    hide AreTheLegs;
    var legs := [first] + rest;
    forall i | 0 <= i < |cs| ensures AreTheLegs(path, policy, cs[i], domain, at, legs[i]) {
      assert i > 0 ==> AreTheLegs(path, policy, cs[1..][i - 1], domain, at, rest[i - 1]);
    }
  }

  function LegsOf(s: State, plan: Plan, path: seq<NodeRecord>, at: int): seq<seq<LegDraft>> {
    if s.policy.None? then []
    else match DeriveLegs(path, s.policy.value, plan.contributions, plan.moduleRef.domainId, at)
      case Refused(_) => []
      case Ok(legs) => legs
  }

  // What the plan derives to: a path it may be charged along, and the legs that path demands.
  lemma DerivesExactly(s: State, plan: Plan, at: int, path: seq<NodeRecord>)
    requires NodesOk(s.principal, s.nodes, s.targets) && PolicyOk(s.policy, s.targets)
    ensures DeriveReservation(s, plan, at).Ok? && DeriveReservation(s, plan, at).value.lineage == path <==> Reservable(s, plan, path, at)
    ensures Reservable(s, plan, path, at) ==>
              && DeriveReservation(s, plan, at) == Ok(Derived(ReservationId(plan.action, plan.generation), path, LegsOf(s, plan, path, at)))
              && AreAllLegs(path, s.policy.value, plan.contributions, plan.moduleRef.domainId, at, LegsOf(s, plan, path, at))
  {
    hide ResolveLineage, LineageRefusal, DeriveLegs, Usable, Holdable, AreAllLegs, NodesOk, ValidTerms, ModuleAllowed;
    UsableIs(s, plan.authority, path, at);
    ModulesIs(path, plan.moduleRef);
    if ResolveLineage(s.nodes, plan.authority, MAX_LINEAGE_LENGTH) == Ok(path) && s.policy.Some? {
      LS.LineageShape(s, plan.authority);
      AllLegsExact(path, s.policy.value, plan.contributions, plan.moduleRef.domainId, at);
    }
    if DeriveReservation(s, plan, at).Ok? {
      DerivedFacts(s, plan, at);
    }
    if Reservable(s, plan, path, at) {
      HasPolicy(s, plan.authority, path, at);
    }
  }

  lemma HasPolicy(s: State, leaf: AuthorityId, path: seq<NodeRecord>, at: int)
    requires Usable(s, leaf, path, at)
    ensures s.policy.Some? && path != []
  {
  }

  lemma ModulesIs(path: seq<NodeRecord>, m: ModuleRef)
    ensures ModuleAllowed(path, m) <==> forall k :: 0 <= k < |path| ==> NamesModule(path[k].grant.terms, m)
  {
    forall k | 0 <= k < |path| ensures NodeAllowsModule(path[k].grant.terms, m) <==> NamesModule(path[k].grant.terms, m) {
    }
    hide NodeAllowsModule, NamesModule;
  }

  // Every target the legs name has room for their sum.
  ghost predicate Fits(s: State, legs: seq<seq<LegDraft>>, at: int) {
    forall key :: Names(Flatten(legs), key) ==>
      && key in s.targets
      && s.targets[key].reserved + DraftSum(Flatten(legs), key) <= UINT256_MAX
      && DraftSum(Flatten(legs), key) <= AvailableOf(s.targets[key], at)
  }

  lemma FitsExactly(s: State, legs: seq<seq<LegDraft>>, at: int)
    ensures CheckAvailability(s.targets, legs, at).Ok? <==> Fits(s, legs, at)
    ensures CheckAvailability(s.targets, legs, at).Ok? ==> CheckAvailability(s.targets, legs, at).value == DemandMap(Flatten(legs), map[])
  {
    hide AvailableOf, DraftSum, Names, DemandMap, Flatten;
    var demand := DemandMap(Flatten(legs), map[]);
    forall key: TargetKey
      ensures (key in demand <==> Names(Flatten(legs), key)) && (key in demand ==> demand[key] == DraftSum(Flatten(legs), key))
    {
      DemandMapSums(Flatten(legs), map[], key);
    }
  }

  // The event states the derived path and legs and nothing else.
  predicate Restates(s: State, e: Event, path: seq<NodeRecord>, legs: seq<seq<LegDraft>>) {
    && e.Reserve? && s.policy.Some? && e.policyId == s.policy.value.id
    && |e.lineage| == |path| && (forall k :: 0 <= k < |path| ==> e.lineage[k] == path[k].id)
    && |e.legs| == |legs| == |e.plan.contributions|
    && forall i :: 0 <= i < |legs| ==> RestatesLegs(e.legs[i], legs[i])
  }

  predicate RestatesLegs(stated: seq<EventLeg>, legs: seq<LegDraft>) {
    |stated| == |legs| && forall j :: 0 <= j < |legs| ==> stated[j] == EventLeg(legs[j].ref, legs[j].amount, legs[j].epoch)
  }

  lemma RestatesIs(s: State, e: Event, path: seq<NodeRecord>, legs: seq<seq<LegDraft>>)
    requires e.Reserve? && s.policy.Some? && |legs| == |e.plan.contributions|
    ensures Restates(s, e, path, legs) <==> e.policyId == s.policy.value.id && e.lineage == LineageIds(path) && e.legs == AllEventLegs(legs)
  {
    if Restates(s, e, path, legs) {
      forall i | 0 <= i < |legs| ensures e.legs[i] == EventLegs(legs[i]) {
        assert RestatesLegs(e.legs[i], legs[i]);
      }
    } else if e.policyId == s.policy.value.id && e.lineage == LineageIds(path) && e.legs == AllEventLegs(legs) {
      forall i | 0 <= i < |legs| ensures RestatesLegs(e.legs[i], legs[i]) {
        assert AllEventLegs(legs)[i] == EventLegs(legs[i]);
      }
    }
  }

  ghost predicate ReserveAcceptable(s: State, e: Event, path: seq<NodeRecord>)
    requires e.Reserve?
  {
    var legs := LegsOf(s, e.plan, path, e.at);
    WellMade(e.plan) && Reservable(s, e.plan, path, e.at) && Restates(s, e, path, legs) && Fits(s, legs, e.at)
  }

  // A target after a reservation: only what is held there has grown, by the sum of its legs.
  ghost predicate TargetAfterReserve(before: map<TargetKey, Balance>, after: map<TargetKey, Balance>, legs: seq<seq<LegDraft>>, key: TargetKey) {
    && (key in after <==> key in before)
    && (key in before ==> after[key] == before[key].(reserved := before[key].reserved + DraftSum(Flatten(legs), key)))
  }

  predicate LegRecorded(l: LegDraft, r: Leg) {
    && r.key == l.key && r.ref == l.ref && r.decimals == l.dimension.limit.decimals
    && (r.capacity <==> l.dimension.accounting.CAPACITY?) && r.epoch == l.epoch
  }

  predicate DemandRecorded(c: Contribution, legs: seq<LegDraft>, d: Demand) {
    && d.contribution == c && d.reserved == c.quantity.atoms && d.consumed == 0 && d.released == 0 && d.restored == 0
    && |d.legs| == |legs| && forall j :: 0 <= j < |legs| ==> LegRecorded(legs[j], d.legs[j])
  }

  // The record a reservation leaves: the plan's own terms, the path and policy it was made under, nothing used yet.
  predicate Recorded(s: State, e: Event, path: seq<NodeRecord>, legs: seq<seq<LegDraft>>, version: nat, r: Reservation)
    requires e.Reserve?
  {
    && r.id == ReservationId(e.plan.action, e.plan.generation) && r.action == e.plan.action && r.generation == e.plan.generation
    && r.authority == e.plan.authority && |r.lineage| == |path| && (forall k :: 0 <= k < |path| ==> r.lineage[k] == path[k].id)
    && s.policy.Some? && r.policy == s.policy.value.id && r.moduleRef == e.plan.moduleRef && r.implementation == e.plan.implementation
    && r.committedAt == version && r.reservedAt == e.at && r.status.ACTIVE?
    && |r.demands| == |legs| == |e.plan.contributions|
    && forall i :: 0 <= i < |legs| ==> DemandRecorded(e.plan.contributions[i], legs[i], r.demands[i])
  }

  // A reservation is accepted exactly when its plan may be charged along a usable path, it states exactly the legs that
  // path demands, and every target has room; and it opens that generation with that record and holds those amounts.
  lemma ReserveExactly(s: State, e: Event, version: nat, rules: Rules)
    requires Inv(s) && e.Reserve?
    ensures ApplyEvent(s, e, version, rules).Ok? <==> InTime(s, e.at) && exists path :: ReserveAcceptable(s, e, path)
    ensures ApplyEvent(s, e, version, rules).Ok? ==>
              var t, id := ApplyEvent(s, e, version, rules).value, ReservationId(e.plan.action, e.plan.generation);
              && t == s.(everReserved := true, targets := t.targets, reservations := t.reservations, lastAt := Some(e.at),
                         actions := s.actions[e.plan.action := ActionRecord(e.plan.generation, Some(id))])
              && id in t.reservations && t.reservations == s.reservations[id := t.reservations[id]]
              && exists path :: ReserveAcceptable(s, e, path) && Recorded(s, e, path, LegsOf(s, e.plan, path, e.at), version, t.reservations[id])
                   && forall key :: TargetAfterReserve(s.targets, t.targets, LegsOf(s, e.plan, path, e.at), key)
  {
    hide DeriveReservation, ApplyReserve, Reservable, Fits, Restates, TargetAfterReserve, Recorded, LegsOf,
      NodesOk, TargetsOk, PolicyOk, SumsOk, EpochsOk, LimitsOk, ActionsOk, AttemptsOk, ReservationsOk;
    var r := ApplyEvent(s, e, version, rules);
    if r.Ok? {
      LS.ReserveStep(s, e, version, rules, r.value);
      assert DeriveReservation(s, e.plan, e.at).Ok? by {
        HasDerived(s, e, version);
      }
      var path := DeriveReservation(s, e.plan, e.at).value.lineage;
      ReserveAlong(s, e, version, path);
    }
    if InTime(s, e.at) && exists path :: ReserveAcceptable(s, e, path) {
      var path :| ReserveAcceptable(s, e, path);
      ReserveAlong(s, e, version, path);
    }
  }

  lemma HasDerived(s: State, e: Event, version: nat)
    requires e.Reserve? && ApplyReserve(s, e, version).Ok?
    ensures DeriveReservation(s, e.plan, e.at).Ok?
  {
    hide DeriveReservation;
  }

  lemma ReserveAlong(s: State, e: Event, version: nat, path: seq<NodeRecord>)
    requires NodesOk(s.principal, s.nodes, s.targets) && PolicyOk(s.policy, s.targets) && e.Reserve? && WellMade(e.plan)
    ensures ReserveAcceptable(s, e, path) ==> ApplyReserve(s, e, version).Ok?
    ensures ApplyReserve(s, e, version).Ok? && DeriveReservation(s, e.plan, e.at).Ok? && DeriveReservation(s, e.plan, e.at).value.lineage == path ==>
              var t, id := ApplyReserve(s, e, version).value, ReservationId(e.plan.action, e.plan.generation);
              var legs := LegsOf(s, e.plan, path, e.at);
              && ReserveAcceptable(s, e, path)
              && t == s.(everReserved := true, targets := t.targets, reservations := t.reservations,
                         actions := s.actions[e.plan.action := ActionRecord(e.plan.generation, Some(id))])
              && id in t.reservations && t.reservations == s.reservations[id := t.reservations[id]]
              && Recorded(s, e, path, legs, version, t.reservations[id])
              && forall key :: TargetAfterReserve(s.targets, t.targets, legs, key)
  {
    hide DeriveReservation, Reservable, Fits, Restates, CheckAvailability, LegsOf, NodesOk, PolicyOk, AllEventLegs, DemandRecords, AddReserved,
      AreAllLegs, TargetAfterReserve, Recorded, DemandMap, Flatten;
    DerivesExactly(s, e.plan, e.at, path);
    if Reservable(s, e.plan, path, e.at) {
      var legs := LegsOf(s, e.plan, path, e.at);
      LegsCount(s, e, path, legs);
      RestatesIs(s, e, path, legs);
      FitsExactly(s, legs, e.at);
      if ApplyReserve(s, e, version).Ok? {
        var d := Derived(ReservationId(e.plan.action, e.plan.generation), path, legs);
        RecordedIs(s, e, d, version);
        forall key ensures TargetAfterReserve(s.targets, ApplyReserve(s, e, version).value.targets, legs, key) {
          HeldIs(s, ApplyReserve(s, e, version).value, legs, key);
        }
      }
    }
  }

  lemma LegsCount(s: State, e: Event, path: seq<NodeRecord>, legs: seq<seq<LegDraft>>)
    requires e.Reserve? && Reservable(s, e.plan, path, e.at)
    requires s.policy.Some? ==> AreAllLegs(path, s.policy.value, e.plan.contributions, e.plan.moduleRef.domainId, e.at, legs)
    ensures s.policy.Some? && |legs| == |e.plan.contributions|
  {
    HasPolicy(s, e.plan.authority, path, e.at);
  }

  lemma RecordedIs(s: State, e: Event, d: Derived, version: nat)
    requires e.Reserve? && s.policy.Some? && |d.legs| == |e.plan.contributions| && d.reservation == ReservationId(e.plan.action, e.plan.generation)
    ensures Recorded(s, e, d.lineage, d.legs, version, RecordOf(s, e, d, version))
  {
    var r := RecordOf(s, e, d, version);
    forall i | 0 <= i < |d.legs| ensures DemandRecorded(e.plan.contributions[i], d.legs[i], r.demands[i]) {
      forall j | 0 <= j < |d.legs[i]| ensures LegRecorded(d.legs[i][j], r.demands[i].legs[j]) {
      }
    }
  }

  lemma HeldIs(s: State, t: State, legs: seq<seq<LegDraft>>, key: TargetKey)
    requires t.targets == AddReserved(s.targets, DemandMap(Flatten(legs), map[]))
    ensures TargetAfterReserve(s.targets, t.targets, legs, key)
  {
    hide DemandMap, Flatten, DraftSum, Names;
    DemandMapSums(Flatten(legs), map[], key);
  }

  // ---- Consuming, closing, restoring -------------------------------------------------------------

  predicate Walks(l: Leg, kind: AccountingKind) {
    kind.RESTORE? ==> l.capacity
  }

  // An amount that may be taken from what a demand still holds, the whole of it for a close, or given back to what it used.
  predicate Takable(d: Demand, x: int, kind: AccountingKind) {
    && (match kind
        case CONSUME => 0 <= x <= d.reserved - d.consumed
        case CLOSE => x == d.reserved - d.consumed
        case RESTORE => 0 <= x <= d.consumed - d.restored && (x > 0 ==> exists j :: 0 <= j < |d.legs| && d.legs[j].capacity))
    && forall j :: 0 <= j < |d.legs| && Walks(d.legs[j], kind) ==> Exact(x, d.contribution.quantity.decimals, d.legs[j].decimals)
  }

  // All that an entry moves at one target.
  function MovedAt(ds: seq<Demand>, amounts: seq<int>, kind: AccountingKind, key: TargetKey): int
    requires |ds| == |amounts|
  {
    if ds == [] then 0
    else LegSum(ds[0].legs, key, Walked(kind), amounts[0], ds[0].contribution.quantity.decimals) + MovedAt(ds[1..], amounts[1..], kind, key)
  }

  predicate Charged(legs: seq<Leg>, key: TargetKey) {
    exists j :: 0 <= j < |legs| && legs[j].key == key
  }

  predicate ChargedBy(ds: seq<Demand>, key: TargetKey) {
    exists i :: 0 <= i < |ds| && Charged(ds[i].legs, key)
  }

  ghost predicate LegRoom(targets: map<TargetKey, Balance>, legs: seq<Leg>, from: nat, x: int) {
    forall key :: Charged(legs, key) ==> key in targets && targets[key].consumed + LegSum(legs, key, AnyLeg, x, from) <= UINT256_MAX
  }

  ghost predicate Known(targets: map<TargetKey, Balance>, legs: seq<Leg>) {
    forall j :: 0 <= j < |legs| ==> legs[j].key in targets
  }

  predicate AllExact(legs: seq<Leg>, from: nat, x: int, kind: AccountingKind) {
    forall j :: 0 <= j < |legs| && Walks(legs[j], kind) ==> Exact(x, from, legs[j].decimals)
  }

  lemma ChargedRest(legs: seq<Leg>, key: TargetKey)
    requires legs != []
    ensures Charged(legs, key) <==> legs[0].key == key || Charged(legs[1..], key)
  {
    var rest := legs[1..];
    if Charged(rest, key) {
      var j :| 0 <= j < |rest| && rest[j].key == key;
      assert legs[j + 1].key == key;
    }
    if Charged(legs, key) && legs[0].key != key {
      var j :| 0 <= j < |legs| && legs[j].key == key;
      assert rest[j - 1].key == key;
    }
  }

  lemma {:induction false} LegSumSign(legs: seq<Leg>, key: TargetKey, x: int, from: nat)
    requires x >= 0
    ensures LegSum(legs, key, AnyLeg, x, from) >= 0
    ensures !Charged(legs, key) ==> LegSum(legs, key, AnyLeg, x, from) == 0
    decreases |legs|
  {
    if legs != [] {
      ScaledNonNegative(x, from, legs[0].decimals);
      ChargedRest(legs, key);
      LegSumSign(legs[1..], key, x, from);
    }
  }

  // The room of the legs after the first, once the first is taken.
  lemma RoomRest(targets: map<TargetKey, Balance>, legs: seq<Leg>, from: nat, x: int, next: Balance)
    requires legs != [] && x >= 0 && Known(targets, legs)
    requires next.consumed == targets[legs[0].key].consumed + Scaled(x, from, legs[0].decimals)
    ensures LegRoom(targets, legs, from, x) <==> next.consumed <= UINT256_MAX && LegRoom(targets[legs[0].key := next], legs[1..], from, x)
  {
    hide Scaled;
    var first, rest := legs[0].key, legs[1..];
    assert forall j :: 0 <= j < |rest| ==> rest[j] == legs[j + 1];
    forall key: TargetKey
      ensures Charged(legs, key) <==> first == key || Charged(rest, key)
      ensures LegSum(rest, key, AnyLeg, x, from) >= 0 && (!Charged(rest, key) ==> LegSum(rest, key, AnyLeg, x, from) == 0)
      ensures LegSum(legs, key, AnyLeg, x, from) == (if first == key then Scaled(x, from, legs[0].decimals) else 0) + LegSum(rest, key, AnyLeg, x, from)
    {
      ChargedRest(legs, key);
      LegSumSign(rest, key, x, from);
    }
    hide Charged, LegSum;
    if next.consumed <= UINT256_MAX && LegRoom(targets[first := next], rest, from, x) {
      forall key | Charged(legs, key) ensures key in targets && targets[key].consumed + LegSum(legs, key, AnyLeg, x, from) <= UINT256_MAX {
        if Charged(rest, key) {
          assert key in targets[first := next];
        }
      }
    }
    if LegRoom(targets, legs, from, x) {
      assert Charged(legs, first);
    }
  }

  // One demand's legs move exactly when the amount is exact on each and nothing used overflows.
  lemma {:induction false} LegsMoveExactly(targets: map<TargetKey, Balance>, legs: seq<Leg>, from: nat, x: int, kind: AccountingKind)
    requires x >= 0 && Known(targets, legs)
    ensures ForEachLeg(targets, legs, from, x, kind).Ok? <==> AllExact(legs, from, x, kind) && (kind.CONSUME? ==> LegRoom(targets, legs, from, x))
    decreases |legs|
  {
    hide LegRoom, Scaled, Exact;
    if legs == [] {
      assert LegRoom(targets, legs, from, x) by {
        NoRoomNeeded(targets, legs, from, x);
      }
    } else {
      var leg, rest := legs[0], legs[1..];
      assert forall j :: 0 <= j < |rest| ==> rest[j] == legs[j + 1];
      assert AllExact(legs, from, x, kind) <==> (Walks(leg, kind) ==> Exact(x, from, leg.decimals)) && AllExact(rest, from, x, kind) by {
        ExactRest(legs, from, x, kind);
      }
      hide AllExact;
      if kind.RESTORE? && !leg.capacity {
        LegsMoveExactly(targets, rest, from, x, kind);
      } else if Exact(x, from, leg.decimals) {
        var b := targets[leg.key];
        var next := UpdateBalance(b, Scaled(x, from, leg.decimals), leg.epoch, kind);
        assert RescaleExact(x, from, leg.decimals) == Some(Scaled(x, from, leg.decimals));
        if next.Some? {
          LegsMoveExactly(targets[leg.key := next.value], rest, from, x, kind);
        }
        if kind.CONSUME? {
          RoomRest(targets, legs, from, x, b.(reserved := if next.Some? then next.value.reserved else 0,
                                              consumed := b.consumed + Scaled(x, from, leg.decimals),
                                              epochConsumed := if next.Some? then next.value.epochConsumed else None));
        }
      }
    }
  }

  lemma NoRoomNeeded(targets: map<TargetKey, Balance>, legs: seq<Leg>, from: nat, x: int)
    requires legs == []
    ensures LegRoom(targets, legs, from, x)
  {
  }

  lemma ExactRest(legs: seq<Leg>, from: nat, x: int, kind: AccountingKind)
    requires legs != []
    ensures AllExact(legs, from, x, kind) <==> (Walks(legs[0], kind) ==> Exact(x, from, legs[0].decimals)) && AllExact(legs[1..], from, x, kind)
  {
    hide Exact;
    var rest := legs[1..];
    if AllExact(rest, from, x, kind) && (Walks(legs[0], kind) ==> Exact(x, from, legs[0].decimals)) {
      forall j | 0 <= j < |legs| && Walks(legs[j], kind) ensures Exact(x, from, legs[j].decimals) {
        assert j > 0 ==> rest[j - 1] == legs[j];
      }
    }
  }

  ghost predicate Room(targets: map<TargetKey, Balance>, ds: seq<Demand>, amounts: seq<int>)
    requires |ds| == |amounts|
  {
    forall key :: ChargedBy(ds, key) ==> key in targets && targets[key].consumed + MovedAt(ds, amounts, CONSUME, key) <= UINT256_MAX
  }

  predicate AllTakable(ds: seq<Demand>, amounts: seq<int>, kind: AccountingKind)
    requires |ds| == |amounts|
  {
    forall i :: 0 <= i < |ds| ==> Takable(ds[i], amounts[i], kind)
  }

  ghost predicate AllKnown(targets: map<TargetKey, Balance>, ds: seq<Demand>) {
    forall i :: 0 <= i < |ds| ==> Known(targets, ds[i].legs)
  }

  lemma ChargedByRest(ds: seq<Demand>, key: TargetKey)
    requires ds != []
    ensures ChargedBy(ds, key) <==> Charged(ds[0].legs, key) || ChargedBy(ds[1..], key)
  {
    hide Charged;
    var rest := ds[1..];
    if ChargedBy(rest, key) {
      var i :| 0 <= i < |rest| && Charged(rest[i].legs, key);
      assert Charged(ds[i + 1].legs, key);
    }
    if ChargedBy(ds, key) && !Charged(ds[0].legs, key) {
      var i :| 0 <= i < |ds| && Charged(ds[i].legs, key);
      assert Charged(rest[i - 1].legs, key);
    }
  }

  lemma {:induction false} MovedSign(ds: seq<Demand>, amounts: seq<int>, key: TargetKey)
    requires |ds| == |amounts| && forall i :: 0 <= i < |amounts| ==> amounts[i] >= 0
    ensures MovedAt(ds, amounts, CONSUME, key) >= 0
    ensures !ChargedBy(ds, key) ==> MovedAt(ds, amounts, CONSUME, key) == 0
    decreases |ds|
  {
    hide LegSum, Charged, ChargedBy;
    if ds != [] {
      LegSumSign(ds[0].legs, key, amounts[0], ds[0].contribution.quantity.decimals);
      ChargedByRest(ds, key);
      MovedSign(ds[1..], amounts[1..], key);
    }
  }

  // The room of the demands after the first, once the first has moved.
  lemma RoomOfRest(targets: map<TargetKey, Balance>, ds: seq<Demand>, amounts: seq<int>, moved: map<TargetKey, Balance>)
    requires ds != [] && |ds| == |amounts| && (forall i :: 0 <= i < |amounts| ==> amounts[i] >= 0) && AllKnown(targets, ds)
    requires ForEachLeg(targets, ds[0].legs, ds[0].contribution.quantity.decimals, amounts[0], CONSUME) == Ok(moved)
    ensures Room(targets, ds, amounts) <==> Room(moved, ds[1..], amounts[1..])
  {
    var d, x, from, rest := ds[0], amounts[0], ds[0].contribution.quantity.decimals, ds[1..];
    LegsMoveExactly(targets, d.legs, from, x, CONSUME);
    forall key: TargetKey
      ensures key in moved <==> key in targets
      ensures key in targets ==> moved[key].consumed == targets[key].consumed + LegSum(d.legs, key, AnyLeg, x, from)
      ensures ChargedBy(ds, key) <==> Charged(d.legs, key) || ChargedBy(rest, key)
      ensures MovedAt(rest, amounts[1..], CONSUME, key) >= 0 && (!ChargedBy(rest, key) ==> MovedAt(rest, amounts[1..], CONSUME, key) == 0)
      ensures MovedAt(ds, amounts, CONSUME, key) == LegSum(d.legs, key, AnyLeg, x, from) + MovedAt(rest, amounts[1..], CONSUME, key)
    {
      LegsEffect(targets, d.legs, from, x, CONSUME, key);
      ChargedByRest(ds, key);
      MovedSign(rest, amounts[1..], key);
    }
    hide ForEachLeg, LegSum, MovedAt, Charged, ChargedBy, AllKnown;
    if Room(moved, rest, amounts[1..]) {
      forall key | ChargedBy(ds, key) ensures key in targets && targets[key].consumed + MovedAt(ds, amounts, CONSUME, key) <= UINT256_MAX {
        if ChargedBy(rest, key) {
          assert key in moved;
        } else {
          assert LegRoom(targets, d.legs, from, x);
        }
      }
    }
  }

  lemma {:induction false} DemandsMoveExactly(targets: map<TargetKey, Balance>, ds: seq<Demand>, amounts: seq<int>, kind: AccountingKind)
    requires |ds| == |amounts| && (forall i :: 0 <= i < |amounts| ==> amounts[i] >= 0) && AllKnown(targets, ds)
    ensures MoveDemands(targets, ds, amounts, kind).Ok? <==> AllTakable(ds, amounts, kind) && (kind.CONSUME? ==> Room(targets, ds, amounts))
    decreases |ds|
  {
    hide Room, LegRoom, ForEachLeg, Exact, Known;
    if ds == [] {
      EmptyRoom(targets, ds, amounts);
    } else {
      var d, x, from := ds[0], amounts[0], ds[0].contribution.quantity.decimals;
      var rest, more := ds[1..], amounts[1..];
      assert forall i :: 0 <= i < |rest| ==> rest[i] == ds[i + 1] && more[i] == amounts[i + 1];
      TakableRest(ds, amounts, kind);
      LegsMoveExactly(targets, d.legs, from, x, kind);
      assert Takable(d, x, kind) <==> AmountRefusal(d, x, kind).None? && AllExact(d.legs, from, x, kind);
      hide Takable, AllTakable, AllExact, AmountRefusal;
      if kind.CONSUME? && Room(targets, ds, amounts) {
        FirstRoom(targets, ds, amounts);
      }
      var first := ForEachLeg(targets, d.legs, from, x, kind);
      if first.Ok? {
        StillKnown(targets, d, x, kind, first.value, rest);
        DemandsMoveExactly(first.value, rest, more, kind);
        if kind.CONSUME? {
          RoomOfRest(targets, ds, amounts, first.value);
        }
      }
    }
  }

  lemma EmptyRoom(targets: map<TargetKey, Balance>, ds: seq<Demand>, amounts: seq<int>)
    requires ds == [] && amounts == []
    ensures Room(targets, ds, amounts)
  {
  }

  lemma TakableRest(ds: seq<Demand>, amounts: seq<int>, kind: AccountingKind)
    requires |ds| == |amounts| && ds != []
    ensures AllTakable(ds, amounts, kind) <==> Takable(ds[0], amounts[0], kind) && AllTakable(ds[1..], amounts[1..], kind)
  {
    hide Takable;
    var rest, more := ds[1..], amounts[1..];
    if Takable(ds[0], amounts[0], kind) && AllTakable(rest, more, kind) {
      forall i | 0 <= i < |ds| ensures Takable(ds[i], amounts[i], kind) {
        assert i > 0 ==> Takable(rest[i - 1], more[i - 1], kind);
      }
    }
  }

  lemma FirstRoom(targets: map<TargetKey, Balance>, ds: seq<Demand>, amounts: seq<int>)
    requires ds != [] && |ds| == |amounts| && (forall i :: 0 <= i < |amounts| ==> amounts[i] >= 0) && Room(targets, ds, amounts)
    ensures LegRoom(targets, ds[0].legs, ds[0].contribution.quantity.decimals, amounts[0])
  {
    hide LegSum, Charged, ChargedBy;
    forall key | Charged(ds[0].legs, key)
      ensures key in targets
      ensures targets[key].consumed + LegSum(ds[0].legs, key, AnyLeg, amounts[0], ds[0].contribution.quantity.decimals) <= UINT256_MAX
    {
      ChargedByRest(ds, key);
      MovedSign(ds[1..], amounts[1..], key);
    }
  }

  lemma StillKnown(targets: map<TargetKey, Balance>, d: Demand, x: int, kind: AccountingKind, moved: map<TargetKey, Balance>, ds: seq<Demand>)
    requires ForEachLeg(targets, d.legs, d.contribution.quantity.decimals, x, kind) == Ok(moved) && AllKnown(targets, ds)
    ensures AllKnown(moved, ds)
  {
    LegsEffect(targets, d.legs, d.contribution.quantity.decimals, x, kind, LS.NodeKeyOf(d));
  }

  // A demand after an entry: what was taken is counted used, or released, or restored.
  predicate DemandAfter(d: Demand, x: int, kind: AccountingKind, e: Demand) {
    match kind
    case CONSUME => e == d.(consumed := d.consumed + x)
    case CLOSE => e == d.(released := x)
    case RESTORE => e == d.(restored := d.restored + x)
  }

  // A target after an entry: what was taken is no longer held, and is counted where it went.
  ghost predicate TargetAfterEntry(b: Balance, c: Balance, kind: AccountingKind, moved: int) {
    match kind
    case CONSUME => c == b.(reserved := b.reserved - moved, consumed := b.consumed + moved, epochConsumed := c.epochConsumed)
    case CLOSE => c == b.(reserved := b.reserved - moved)
    case RESTORE => c == b.(restored := b.restored + moved)
  }

  lemma {:induction false} EntryIs(targets: map<TargetKey, Balance>, ds: seq<Demand>, amounts: seq<int>, kind: AccountingKind, key: TargetKey)
    requires |ds| == |amounts| && MoveDemands(targets, ds, amounts, kind).Ok?
    ensures var out := MoveDemands(targets, ds, amounts, kind).value;
            && out.0.Keys == targets.Keys
            && (key in targets ==> TargetAfterEntry(targets[key], out.0[key], kind, MovedAt(ds, amounts, kind, key)))
            && |out.1| == |ds| && forall i :: 0 <= i < |ds| ==> DemandAfter(ds[i], amounts[i], kind, out.1[i])
    decreases |ds|
  {
    if ds != [] {
      var d, x, from := ds[0], amounts[0], ds[0].contribution.quantity.decimals;
      var moved := ForEachLeg(targets, d.legs, from, x, kind).value;
      LegsEffect(targets, d.legs, from, x, kind, key);
      EntryIs(moved, ds[1..], amounts[1..], kind, key);
      assert forall i :: 0 < i < |ds| ==> ds[i] == ds[1..][i - 1] && amounts[i] == amounts[1..][i - 1];
    }
  }

  // Which reservation an entry may be made in, and how much of each demand.
  ghost predicate EntryAcceptable(s: State, e: Event)
    requires e.Account?
  {
    && e.reservation in s.reservations
    && var r := s.reservations[e.reservation];
       && r.generation == e.generation && |e.amounts| == |r.demands|
       && (forall i :: 0 <= i < |e.amounts| ==> e.amounts[i] >= 0)
       && (e.kind.RESTORE? || r.status.ACTIVE?)
       && (e.kind.CLOSE? || exists i :: 0 <= i < |e.amounts| && e.amounts[i] > 0)
       && AllTakable(r.demands, e.amounts, e.kind)
       && (e.kind.CONSUME? ==> Room(s.targets, r.demands, e.amounts))
  }

  ghost predicate AfterEntry(s: State, e: Event, t: State)
    requires e.Account? && e.reservation in s.reservations && |e.amounts| == |s.reservations[e.reservation].demands|
  {
    var r := s.reservations[e.reservation];
    && e.reservation in t.reservations && t.reservations == s.reservations[e.reservation := t.reservations[e.reservation]]
    && var after := t.reservations[e.reservation];
       && after == r.(demands := after.demands, status := if e.kind.CLOSE? then CLOSED else r.status)
       && |after.demands| == |r.demands| && (forall i :: 0 <= i < |r.demands| ==> DemandAfter(r.demands[i], e.amounts[i], e.kind, after.demands[i]))
       && t.targets.Keys == s.targets.Keys
       && (forall key :: key in s.targets ==> TargetAfterEntry(s.targets[key], t.targets[key], e.kind, MovedAt(r.demands, e.amounts, e.kind, key)))
       && t.actions == (if e.kind.CLOSE? then s.actions[r.action := ActionRecord(r.generation, None)] else s.actions)
  }

  // An entry is accepted exactly when its amounts may be taken from what the reservation still holds (the whole rest for
  // a close) or given back to what it used; and it moves those amounts, in the record and at every target, and nothing else.
  lemma AccountExactly(s: State, e: Event, version: nat, rules: Rules)
    requires Inv(s) && e.Account?
    ensures ApplyEvent(s, e, version, rules).Ok? <==> InTime(s, e.at) && EntryAcceptable(s, e)
    ensures ApplyEvent(s, e, version, rules).Ok? ==>
              var t := ApplyEvent(s, e, version, rules).value;
              && t == s.(targets := t.targets, reservations := t.reservations, actions := t.actions, lastAt := Some(e.at))
              && AfterEntry(s, e, t)
  {
    hide Inv, ApplyAccount, EntryAcceptable, AfterEntry;
    if e.reservation in s.reservations {
      EntryFacts(s, e.reservation);
      AccountAlong(s, e);
    } else {
      assert !EntryAcceptable(s, e) && ApplyAccount(s, e).Refused? by {
        NoReservation(s, e);
      }
    }
  }

  lemma NoReservation(s: State, e: Event)
    requires e.Account? && e.reservation !in s.reservations
    ensures !EntryAcceptable(s, e) && ApplyAccount(s, e).Refused?
  {
  }

  // What the invariant says of one reservation's record.
  predicate EntryReady(s: State, id: ReservationId) {
    && id in s.reservations
    && var r := s.reservations[id];
       && r.id == id && (forall i, j :: 0 <= i < |r.demands| && 0 <= j < |r.demands[i].legs| ==> r.demands[i].legs[j].key in s.targets)
       && (r.status.ACTIVE? ==> r.action in s.actions && s.actions[r.action] == ActionRecord(r.generation, Some(id)))
  }

  lemma EntryFacts(s: State, id: ReservationId)
    requires Inv(s) && id in s.reservations
    ensures EntryReady(s, id)
  {
    hide NodesOk, TargetsOk, PolicyOk, SumsOk, EpochsOk, LimitsOk, AttemptsOk;
    assert ReservationOk(s.targets, id, s.reservations[id], s.lastAt.value);
  }

  lemma AccountAlong(s: State, e: Event)
    requires e.Account? && EntryReady(s, e.reservation)
    ensures ApplyAccount(s, e).Ok? <==> EntryAcceptable(s, e)
    ensures ApplyAccount(s, e).Ok? ==>
              var t := ApplyAccount(s, e).value;
              && t == s.(targets := t.targets, reservations := t.reservations, actions := t.actions)
              && |e.amounts| == |s.reservations[e.reservation].demands|
              && forall at :: AfterEntry(s, e, t.(lastAt := at))
  {
    hide MoveDemands, AllTakable, Room, MovedAt, DemandAfter, TargetAfterEntry;
    var r := s.reservations[e.reservation];
    if |e.amounts| == |r.demands| && forall i :: 0 <= i < |e.amounts| ==> e.amounts[i] >= 0 {
      DemandsMoveExactly(s.targets, r.demands, e.amounts, e.kind);
      EntryMoves(s.targets, r.demands, e.amounts, e.kind);
    }
  }

  lemma EntryMoves(targets: map<TargetKey, Balance>, ds: seq<Demand>, amounts: seq<int>, kind: AccountingKind)
    requires |ds| == |amounts|
    ensures MoveDemands(targets, ds, amounts, kind).Ok? ==>
              var out := MoveDemands(targets, ds, amounts, kind).value;
              && out.0.Keys == targets.Keys
              && (forall key :: key in targets ==> TargetAfterEntry(targets[key], out.0[key], kind, MovedAt(ds, amounts, kind, key)))
              && |out.1| == |ds| && forall i :: 0 <= i < |ds| ==> DemandAfter(ds[i], amounts[i], kind, out.1[i])
  {
    hide MoveDemands, MovedAt;
    if MoveDemands(targets, ds, amounts, kind).Ok? {
      var out := MoveDemands(targets, ds, amounts, kind).value;
      forall key: TargetKey
        ensures out.0.Keys == targets.Keys && |out.1| == |ds| && forall i :: 0 <= i < |ds| ==> DemandAfter(ds[i], amounts[i], kind, out.1[i])
        ensures key in targets ==> TargetAfterEntry(targets[key], out.0[key], kind, MovedAt(ds, amounts, kind, key))
      {
        EntryIs(targets, ds, amounts, kind, key);
      }
      var any: TargetKey := *;
      EntryIs(targets, ds, amounts, kind, any);
    }
  }

  // ---- Admitting an attempt ----------------------------------------------------------------------

  predicate WellMadeAttempt(a: Admission) {
    && 1 <= Width(a.artifact.id) <= MAX_ARTIFACT_ID_BYTES && ValidIdentifier(a.artifact.kind)
    && (a.slot.Some? ==> 0 <= a.slot.value.sequence <= UINT64_MAX && ValidIdentifier(a.slot.value.scope))
    && ValidResource(a.venueAccount) && a.venueAccount.kind.ACCOUNT? && INT64_MIN <= a.validUntil <= INT64_MAX
  }

  // The first attempt of an open reservation, restating it, with an artifact and a slot never used, not over, under a
  // grant still usable.
  ghost predicate AttemptAcceptable(s: State, a: Admission, at: int) {
    && WellMadeAttempt(a) && a.reservation in s.reservations
    && var r := s.reservations[a.reservation];
       && a.generation == r.generation && a.action == r.action && a.moduleRef == r.moduleRef && r.status.ACTIVE?
       && a.reservation !in s.reservationAttempts && a.ordinal == 1
       && a.attempt == AttemptId(a.reservation, a.generation, a.action, a.moduleRef, a.adapter, a.authorization, 1)
       && a.artifact !in s.artifacts && (a.slot.Some? ==> a.slot.value !in s.slots)
       && at < a.validUntil
       && exists path :: Usable(s, r.authority, path, at)
  }

  lemma AttemptExactly(s: State, at: int, a: Admission, version: nat, rules: Rules)
    requires Inv(s)
    ensures ApplyEvent(s, AdmitAttempt(at, a), version, rules).Ok? <==> InTime(s, at) && AttemptAcceptable(s, a, at)
    ensures ApplyEvent(s, AdmitAttempt(at, a), version, rules).Ok? ==>
              ApplyEvent(s, AdmitAttempt(at, a), version, rules).value
              == s.(attempts := s.attempts[a.attempt := Attempt(a, version, at)],
                    artifacts := s.artifacts[a.artifact := a.attempt],
                    slots := if a.slot.Some? then s.slots[a.slot.value := a.attempt] else s.slots,
                    reservationAttempts := s.reservationAttempts[a.reservation := [a.attempt]],
                    lastAt := Some(at))
  {
    hide ResolveLineage, LineageRefusal, Usable, NodesOk, TargetsOk, PolicyOk, SumsOk, EpochsOk, LimitsOk, ActionsOk, ReservationsOk, ValidIdentifier, Width;
    NoAttempts(s, a);
    if a.reservation in s.reservations {
      var leaf := s.reservations[a.reservation].authority;
      var found := ResolveLineage(s.nodes, leaf, MAX_LINEAGE_LENGTH);
      forall path ensures Usable(s, leaf, path, at) <==> found == Ok(path) && LineageRefusal(s, path, at).None? {
        UsableIs(s, leaf, path, at);
      }
      assert [] + [a.attempt] == [a.attempt];
    }
  }

  // A reservation has no attempt exactly when none names it; and then no attempt has the identity a new one would.
  lemma NoAttempts(s: State, a: Admission)
    requires AttemptsOk(s.attempts, s.artifacts, s.slots, s.reservationAttempts, s.reservations)
    ensures AttemptsOf(s, a.reservation) == [] <==> a.reservation !in s.reservationAttempts
    ensures a.reservation !in s.reservationAttempts && DerivedAttemptId(a) == a.attempt ==> a.attempt !in s.attempts
  {
    if a.attempt in s.attempts && DerivedAttemptId(a) == a.attempt {
      assert AttemptOk(a.attempt, s.attempts[a.attempt].admission, s.reservations, s.artifacts, s.slots);
    }
  }
}
