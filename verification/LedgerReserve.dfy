// Reserving keeps the ledger invariant: the derived legs are sound, complete, and fit.
module LedgerReserve {
  import opened Common
  import opened Core
  import opened Decimals
  import opened Ledger
  import opened Charges
  import opened Movement
  import opened LedgerInvariant
  import opened LedgerAccounting

  // ---- The lineage is made of registered nodes -------------------------------------------------

  lemma {:induction false} LineageRegistered(principal: Party, nodes: map<AuthorityId, NodeRecord>, targets: map<TargetKey, Balance>,
                                             leaf: AuthorityId, room: nat)
    requires NodesOk(principal, nodes, targets) && ResolveLineage(nodes, leaf, room).Ok?
    ensures var lineage := ResolveLineage(nodes, leaf, room).value;
            && lineage[0].id == leaf
            && forall i :: 0 <= i < |lineage| ==> lineage[i].id in nodes && nodes[lineage[i].id] == lineage[i]
    decreases room
  {
    var node := nodes[leaf];
    if node.grant.lineage.DELEGATION? {
      LineageRegistered(principal, nodes, targets, node.grant.lineage.parent, room - 1);
    }
  }

  // ---- Sound legs ------------------------------------------------------------------------------

  ghost predicate DraftOk(targets: map<TargetKey, Balance>, c: Contribution, at: int, l: LegDraft) {
    && l.key in targets
    && l.dimension == targets[l.key].dimension
    && Exact(c.quantity.atoms, c.quantity.decimals, l.dimension.limit.decimals)
    && l.amount == Scaled(c.quantity.atoms, c.quantity.decimals, l.dimension.limit.decimals)
    && l.epoch == (if l.dimension.restoration.EPOCH? then EpochIndex(l.dimension, at) else None)
    && (l.dimension.restoration.EPOCH? ==> l.epoch.Some?)
  }

  ghost predicate DraftsOk(targets: map<TargetKey, Balance>, c: Contribution, at: int, ls: seq<LegDraft>) {
    forall i :: 0 <= i < |ls| ==> DraftOk(targets, c, at, ls[i])
  }

  lemma {:induction false} NodeLegsSound(targets: map<TargetKey, Balance>, id: AuthorityId, dims: seq<Dimension>,
    c: Contribution, domain: string, at: int)
    requires NodeLegs(id, dims, c, domain, at).Ok?
    requires forall d :: d in dims ==> NodeKey(id, d.dimensionId) in targets && targets[NodeKey(id, d.dimensionId)].dimension == d
    ensures DraftsOk(targets, c, at, NodeLegs(id, dims, c, domain, at).value)
    decreases |dims|
  {
    if dims != [] {
      assert dims[0] in dims;
      assert forall d :: d in dims[1..] ==> d in dims;
      NodeLegsSound(targets, id, dims[1..], c, domain, at);
    }
  }

  lemma {:induction false} LineageLegsSound(principal: Party, nodes: map<AuthorityId, NodeRecord>, targets: map<TargetKey, Balance>,
                                            lineage: seq<NodeRecord>, c: Contribution, domain: string, at: int)
    requires NodesOk(principal, nodes, targets)
    requires forall i :: 0 <= i < |lineage| ==> lineage[i].id in nodes && nodes[lineage[i].id] == lineage[i]
    requires LineageLegs(lineage, c, domain, at).Ok?
    ensures DraftsOk(targets, c, at, LineageLegs(lineage, c, domain, at).value)
    decreases |lineage|
  {
    if lineage != [] {
      assert NodeTargets(targets, lineage[0].id);
      assert lineage[0].grant == lineage[0].id.preimage;
      NodeLegsSound(targets, lineage[0].id, DimensionsOf(lineage[0].grant.terms), c, domain, at);
      LineageLegsSound(principal, nodes, targets, lineage[1..], c, domain, at);
    }
  }

  lemma {:induction false} PolicyLegsSound(targets: map<TargetKey, Balance>, id: PolicyId, dims: seq<Dimension>,
    c: Contribution, domain: string, at: int)
    requires PolicyLegs(id, dims, c, domain, at).Ok?
    requires forall d :: d in dims ==> GlobalKey(DimensionIdentity(d)) in targets && targets[GlobalKey(DimensionIdentity(d))].dimension == d
    ensures DraftsOk(targets, c, at, PolicyLegs(id, dims, c, domain, at).value)
    decreases |dims|
  {
    if dims != [] {
      assert dims[0] in dims;
      assert forall d :: d in dims[1..] ==> d in dims;
      PolicyLegsSound(targets, id, dims[1..], c, domain, at);
    }
  }

  ghost predicate AllDraftsOk(targets: map<TargetKey, Balance>, cs: seq<Contribution>, at: int, legs: seq<seq<LegDraft>>) {
    |legs| == |cs| && forall i :: 0 <= i < |cs| ==> DraftsOk(targets, cs[i], at, legs[i])
  }

  lemma {:induction false} LegsSound(principal: Party, nodes: map<AuthorityId, NodeRecord>, targets: map<TargetKey, Balance>,
                                     lineage: seq<NodeRecord>, policy: PolicyRecord, cs: seq<Contribution>, domain: string, at: int)
    requires NodesOk(principal, nodes, targets) && PolicyOk(Some(policy), targets)
    requires forall i :: 0 <= i < |lineage| ==> lineage[i].id in nodes && nodes[lineage[i].id] == lineage[i]
    requires DeriveLegs(lineage, policy, cs, domain, at).Ok?
    ensures AllDraftsOk(targets, cs, at, DeriveLegs(lineage, policy, cs, domain, at).value)
    decreases |cs|
  {
    if cs != [] {
      LineageLegsSound(principal, nodes, targets, lineage, cs[0], domain, at);
      PolicyLegsSound(targets, policy.id, DimensionsOf(policy.policy.terms), cs[0], domain, at);
      LegsSound(principal, nodes, targets, lineage, policy, cs[1..], domain, at);
    }
  }

  // ---- The aggregate demand --------------------------------------------------------------------

  function DraftSum(ls: seq<LegDraft>, key: TargetKey): int {
    if ls == [] then 0 else (if ls[0].key == key then ls[0].amount else 0) + DraftSum(ls[1..], key)
  }

  predicate Names(ls: seq<LegDraft>, key: TargetKey) {
    exists i :: 0 <= i < |ls| && ls[i].key == key
  }

  // The loop's map holds, at each target, the sum of every leg of the plan there.
  lemma {:induction false} DemandMapSums(ls: seq<LegDraft>, acc: map<TargetKey, int>, key: TargetKey)
    ensures key in DemandMap(ls, acc) <==> key in acc || Names(ls, key)
    ensures key in DemandMap(ls, acc) ==> DemandMap(ls, acc)[key] == (if key in acc then acc[key] else 0) + DraftSum(ls, key)
    ensures !Names(ls, key) ==> DraftSum(ls, key) == 0
    decreases |ls|
  {
    if ls != [] {
      var k := ls[0].key;
      var next := acc[k := (if k in acc then acc[k] else 0) + ls[0].amount];
      DemandMapSums(ls[1..], next, key);
      assert Names(ls, key) <==> k == key || Names(ls[1..], key) by {
        if Names(ls[1..], key) {
          var i :| 0 <= i < |ls[1..]| && ls[1..][i].key == key;
          assert ls[i + 1].key == key;
        }
        if Names(ls, key) && k != key {
          var i :| 0 <= i < |ls| && ls[i].key == key;
          assert ls[1..][i - 1].key == key;
        }
      }
    }
  }

  lemma {:induction false} DraftSumConcat(a: seq<LegDraft>, b: seq<LegDraft>, key: TargetKey)
    ensures DraftSum(a + b, key) == DraftSum(a, key) + DraftSum(b, key)
    decreases |a|
  {
    if a == [] {
      assert a + b == b;
    } else {
      assert (a + b)[1..] == a[1..] + b;
      DraftSumConcat(a[1..], b, key);
    }
  }

  // ---- What a new reservation charges ----------------------------------------------------------

  lemma {:induction false} RecordsCharge(targets: map<TargetKey, Balance>, c: Contribution, at: int, ls: seq<LegDraft>, key: TargetKey, e: int)
    requires DraftsOk(targets, c, at, ls) && c.quantity.atoms >= 0
    ensures var sum := LegSum(LegRecords(ls), key, AnyLeg, c.quantity.atoms, c.quantity.decimals);
            && sum == DraftSum(ls, key)
            && 0 <= LegSum(LegRecords(ls), key, InEpoch(e), c.quantity.atoms, c.quantity.decimals) <= sum
    ensures key in targets && EpochIndex(targets[key].dimension, at) != Some(e) ==>
              LegSum(LegRecords(ls), key, InEpoch(e), c.quantity.atoms, c.quantity.decimals) == 0
    decreases |ls|
  {
    if ls != [] {
      assert LegRecords(ls)[1..] == LegRecords(ls[1..]);
      assert DraftOk(targets, c, at, ls[0]);
      ScaledNonNegative(c.quantity.atoms, c.quantity.decimals, ls[0].dimension.limit.decimals);
      RecordsCharge(targets, c, at, ls[1..], key, e);
    }
  }

  lemma {:induction false} NewDemandsCharge(targets: map<TargetKey, Balance>, cs: seq<Contribution>, at: int,
    legs: seq<seq<LegDraft>>, key: TargetKey, e: int)
    requires AllDraftsOk(targets, cs, at, legs)
    requires forall i :: 0 <= i < |cs| ==> cs[i].quantity.atoms > 0
    ensures var ds := DemandRecords(cs, legs);
            && DemandsCharge(ds, true, Outstanding, key) == DraftSum(Flatten(legs), key)
            && DemandsCharge(ds, true, Consumed, key) == 0
            && DemandsCharge(ds, true, Restored, key) == 0
            && DemandsCharge(ds, true, ConsumedIn(e), key) == 0
            && 0 <= DemandsCharge(ds, true, OutstandingIn(e), key) <= DraftSum(Flatten(legs), key)
            && (key in targets && EpochIndex(targets[key].dimension, at) != Some(e) ==> DemandsCharge(ds, true, OutstandingIn(e), key) == 0)
    decreases |cs|
  {
    if cs != [] {
      var ds := DemandRecords(cs, legs);
      assert ds[1..] == DemandRecords(cs[1..], legs[1..]);
      assert AllDraftsOk(targets, cs[1..], at, legs[1..]);
      NewDemandsCharge(targets, cs[1..], at, legs[1..], key, e);
      RecordsCharge(targets, cs[0], at, legs[0], key, e);
      DraftSumConcat(legs[0], Flatten(legs[1..]), key);
      LegSumZero(ds[0].legs, key, AnyLeg, cs[0].quantity.decimals);
      LegSumZero(ds[0].legs, key, CapacityLegs, cs[0].quantity.decimals);
      LegSumZero(ds[0].legs, key, InEpoch(e), cs[0].quantity.decimals);
    }
  }

  lemma ZeroExact(from: nat, to: nat)
    ensures Exact(0, from, to)
  {
  }

  lemma NewDemandsWellFormed(targets: map<TargetKey, Balance>, cs: seq<Contribution>, at: int, legs: seq<seq<LegDraft>>)
    requires AllDraftsOk(targets, cs, at, legs)
    requires forall i :: 0 <= i < |cs| ==> cs[i].quantity.atoms > 0
    ensures AllWellFormed(DemandRecords(cs, legs), true)
    ensures LegsFit(targets, DemandRecords(cs, legs), at)
  {
    var ds := DemandRecords(cs, legs);
    forall i | 0 <= i < |ds| ensures WellFormed(ds[i], true) {
      forall j | 0 <= j < |ds[i].legs|
        ensures Exact(ds[i].reserved, cs[i].quantity.decimals, ds[i].legs[j].decimals)
        ensures Exact(0, cs[i].quantity.decimals, ds[i].legs[j].decimals)
      {
        assert DraftOk(targets, cs[i], at, legs[i][j]);
        ZeroExact(cs[i].quantity.decimals, ds[i].legs[j].decimals);
      }
    }
    forall i, j | 0 <= i < |ds| && 0 <= j < |ds[i].legs|
      ensures ds[i].legs[j].key in targets && LegFits(targets[ds[i].legs[j].key].dimension, ds[i].legs[j], at)
    {
      assert DraftOk(targets, cs[i], at, legs[i][j]);
    }
  }

  // ---- The reservation fits --------------------------------------------------------------------

  lemma NewReservationBalances(b: Balance, rs: map<ReservationId, Reservation>, r: Reservation, key: TargetKey, amount: int)
    requires Balanced(b, rs, key) && r.id !in rs
    requires Charge(r, Outstanding, key) == amount && Charge(r, Consumed, key) == 0 && Charge(r, Restored, key) == 0
    requires forall e :: Charge(r, ConsumedIn(e), key) == 0
    ensures Balanced(b.(reserved := b.reserved + amount), rs[r.id := r], key)
  {
    TotalAdd(rs, r.id, r, Outstanding, key);
    TotalAdd(rs, r.id, r, Consumed, key);
    TotalAdd(rs, r.id, r, Restored, key);
    var f, g := ConsumedPerEpoch(rs, key), ConsumedPerEpoch(rs[r.id := r], key);
    forall e ensures f(e) == g(e) {
      TotalAdd(rs, r.id, r, ConsumedIn(e), key);
    }
    TracksSame(b.epochConsumed, f, g);
  }

  // Nothing consumed so far belongs to an epoch later than the one `at` falls in.
  lemma UsedNow(b: Balance, rs: map<ReservationId, Reservation>, key: TargetKey, at: int, now: int)
    requires Balanced(b, rs, key) && b.dimension.restoration.EPOCH? && EpochIndex(b.dimension, at) == Some(now)
    requires forall e :: e > now ==> Total(rs, ConsumedIn(e), key) == 0
    ensures b.dimension.limit.atoms - AvailableOf(b, at) >= Total(rs, ConsumedIn(now), key) + b.reserved
         || (b.epochConsumed.Some? && b.epochConsumed.value.epoch > now)
  {
    var used := ConsumedPerEpoch(rs, key);
    assert used(now) == Total(rs, ConsumedIn(now), key);
  }

  lemma LaterEpochsUnused(targets: map<TargetKey, Balance>, rs: map<ReservationId, Reservation>, lastAt: Option<int>, key: TargetKey, at: int, e: int)
    requires ReservationsOk(targets, rs, lastAt) && (lastAt.Some? ==> lastAt.value <= at) && key in targets
    requires EpochIndex(targets[key].dimension, at).Some? && e > EpochIndex(targets[key].dimension, at).value
    ensures Total(rs, ConsumedIn(e), key) == 0
  {
    ReservationsLater(targets, rs, lastAt, at);
    TotalWithoutEpoch(rs, key, e, targets, at);
  }

  lemma {:induction false} TotalWithoutEpoch(rs: map<ReservationId, Reservation>, key: TargetKey, e: int, targets: map<TargetKey, Balance>, at: int)
    requires forall id :: id in rs ==> ReservationOk(targets, id, rs[id], at)
    requires key in targets && EpochIndex(targets[key].dimension, at).Some? && e > EpochIndex(targets[key].dimension, at).value
    ensures Total(rs, ConsumedIn(e), key) == 0
    decreases |rs|
  {
    if rs != map[] {
      var id := Pick(rs);
      assert ReservationOk(targets, id, rs[id], at);
      DemandsWithoutEpoch(rs[id].demands, rs[id].status.ACTIVE?, key, e, targets, at);
      TotalWithoutEpoch(rs - {id}, key, e, targets, at);
    }
  }

  lemma {:induction false} DemandsWithoutEpoch(ds: seq<Demand>, active: bool, key: TargetKey, e: int, targets: map<TargetKey, Balance>, at: int)
    requires LegsFit(targets, ds, at)
    requires key in targets && EpochIndex(targets[key].dimension, at).Some? && e > EpochIndex(targets[key].dimension, at).value
    ensures DemandsCharge(ds, active, ConsumedIn(e), key) == 0
    decreases |ds|
  {
    if ds != [] {
      var d := ds[0];
      forall j | 0 <= j < |d.legs| ensures !Counts(d.legs[j], key, InEpoch(e)) {
        assert LegFits(targets[ds[0].legs[j].key].dimension, ds[0].legs[j], at);
      }
      LegSumElsewhere(d.legs, key, InEpoch(e), d.consumed, d.contribution.quantity.decimals);
      assert forall i :: 0 <= i < |ds[1..]| ==> ds[1..][i] == ds[i + 1];
      DemandsWithoutEpoch(ds[1..], active, key, e, targets, at);
    }
  }

  // A demand within what is available keeps the target within its limit, whatever its restoration rule.
  lemma NewReservationWithin(b: Balance, rs: map<ReservationId, Reservation>, r: Reservation, key: TargetKey, amount: int, at: int)
    requires Balanced(b, rs, key) && Within(b, rs, key) && r.id !in rs
    requires forall id :: id in rs ==> AllWellFormed(rs[id].demands, rs[id].status.ACTIVE?)
    requires Charge(r, Outstanding, key) == amount && Charge(r, Consumed, key) == 0 && Charge(r, Restored, key) == 0
    requires forall e :: Charge(r, ConsumedIn(e), key) == 0 && 0 <= Charge(r, OutstandingIn(e), key) <= amount
    requires forall e :: EpochIndex(b.dimension, at) != Some(e) ==> Charge(r, OutstandingIn(e), key) == 0
    requires amount == 0 || amount <= AvailableOf(b, at)
    requires forall e :: EpochIndex(b.dimension, at).Some? && e > EpochIndex(b.dimension, at).value ==> Total(rs, ConsumedIn(e), key) == 0
    requires b.epochConsumed.Some? && EpochIndex(b.dimension, at).Some? ==> b.epochConsumed.value.epoch <= EpochIndex(b.dimension, at).value
    ensures Within(b, rs[r.id := r], key)
  {
    TotalAdd(rs, r.id, r, Outstanding, key);
    TotalAdd(rs, r.id, r, Consumed, key);
    TotalAdd(rs, r.id, r, Restored, key);
    if b.dimension.restoration.EPOCH? {
      forall e ensures Total(rs[r.id := r], OutstandingIn(e), key) + Total(rs[r.id := r], ConsumedIn(e), key) <= b.dimension.limit.atoms {
        TotalAdd(rs, r.id, r, OutstandingIn(e), key);
        TotalAdd(rs, r.id, r, ConsumedIn(e), key);
        TotalOrder(rs, key, e);
        if EpochIndex(b.dimension, at) == Some(e) {
          UsedNow(b, rs, key, at, e);
        }
      }
    }
  }

  // ---- The event -------------------------------------------------------------------------------

  // A reservation's parts, as the reducer derives them.
  datatype Entry = Entry(r: Reservation, legs: seq<seq<LegDraft>>, demand: map<TargetKey, int>)

  ghost predicate IsEntry(targets: map<TargetKey, Balance>, plan: Plan, at: int, x: Entry) {
    && ValidPlan(plan)
    && AllDraftsOk(targets, plan.contributions, at, x.legs)
    && CheckAvailability(targets, x.legs, at) == Ok(x.demand)
    && x.r.demands == DemandRecords(plan.contributions, x.legs)
    && x.r.status == ACTIVE
    && x.r.id == ReservationId(plan.action, plan.generation)
    && x.r.action == plan.action && x.r.generation == plan.generation
  }

  // What a derived reservation was checked for.
  lemma DerivedFacts(s: State, plan: Plan, at: int)
    requires DeriveReservation(s, plan, at).Ok?
    ensures var d := DeriveReservation(s, plan, at).value;
            && plan.principal == s.principal
            && s.policy.Some?
            && ResolveLineage(s.nodes, plan.authority, MAX_LINEAGE_LENGTH) == Ok(d.lineage)
            && LineageRefusal(s, d.lineage, at).None?
            && plan.actor == d.lineage[0].grant.holder
            && ModuleAllowed(d.lineage, plan.moduleRef)
            && d.reservation == ReservationId(plan.action, plan.generation) && d.reservation !in s.reservations
            && (plan.action in s.actions ==> s.actions[plan.action].open.None?)
            && plan.generation == (if plan.action in s.actions then s.actions[plan.action].lastGeneration + 1 else 1)
            && DeriveLegs(d.lineage, s.policy.value, plan.contributions, plan.moduleRef.domainId, at) == Ok(d.legs)
  {
  }

  function RecordOf(s: State, e: Event, d: Derived, version: nat): Reservation
    requires e.Reserve? && s.policy.Some? && |d.legs| == |e.plan.contributions|
  {
    Reservation(d.reservation, e.plan.action, e.plan.generation, e.plan.authority, LineageIds(d.lineage), s.policy.value.id,
                e.plan.moduleRef, e.plan.implementation, version, e.at, ACTIVE, DemandRecords(e.plan.contributions, d.legs))
  }

  lemma ReserveEffect(s: State, e: Event, version: nat) returns (x: Entry)
    requires e.Reserve? && ValidPlan(e.plan) && ApplyReserve(s, e, version).Ok?
    requires NodesOk(s.principal, s.nodes, s.targets) && PolicyOk(s.policy, s.targets)
    ensures IsEntry(s.targets, e.plan, e.at, x)
    ensures x.r.id !in s.reservations
    ensures e.plan.action in s.actions ==> s.actions[e.plan.action].open.None?
    ensures e.plan.generation == if e.plan.action in s.actions then s.actions[e.plan.action].lastGeneration + 1 else 1
    ensures ApplyReserve(s, e, version).value
         == s.(everReserved := true, targets := AddReserved(s.targets, x.demand), reservations := s.reservations[x.r.id := x.r],
               actions := s.actions[e.plan.action := ActionRecord(e.plan.generation, Some(x.r.id))])
  {
    var d := DeriveReservation(s, e.plan, e.at).value;
    DerivedFacts(s, e.plan, e.at);
    x := Entry(RecordOf(s, e, d, version), d.legs, CheckAvailability(s.targets, d.legs, e.at).value);
    assert AllDraftsOk(s.targets, e.plan.contributions, e.at, d.legs) by {
      LineageRegistered(s.principal, s.nodes, s.targets, e.plan.authority, MAX_LINEAGE_LENGTH);
      LegsSound(s.principal, s.nodes, s.targets, d.lineage, s.policy.value, e.plan.contributions, e.plan.moduleRef.domainId, e.at);
    }
  }

  lemma EntryCharges(targets: map<TargetKey, Balance>, plan: Plan, at: int, x: Entry, key: TargetKey)
    requires IsEntry(targets, plan, at, x) && key in targets
    ensures var amount := if key in x.demand then x.demand[key] else 0;
            && Charge(x.r, Outstanding, key) == amount && Charge(x.r, Consumed, key) == 0 && Charge(x.r, Restored, key) == 0
            && (forall e :: Charge(x.r, ConsumedIn(e), key) == 0 && 0 <= Charge(x.r, OutstandingIn(e), key) <= amount)
            && (forall e :: EpochIndex(targets[key].dimension, at) != Some(e) ==> Charge(x.r, OutstandingIn(e), key) == 0)
            && (key in x.demand ==> amount <= AvailableOf(targets[key], at))
  {
    DemandMapSums(Flatten(x.legs), map[], key);
    forall e
      ensures Charge(x.r, Outstanding, key) == DraftSum(Flatten(x.legs), key)
      ensures Charge(x.r, Consumed, key) == 0 && Charge(x.r, Restored, key) == 0
      ensures Charge(x.r, ConsumedIn(e), key) == 0 && 0 <= Charge(x.r, OutstandingIn(e), key) <= DraftSum(Flatten(x.legs), key)
      ensures EpochIndex(targets[key].dimension, at) != Some(e) ==> Charge(x.r, OutstandingIn(e), key) == 0
    {
      NewDemandsCharge(targets, plan.contributions, at, x.legs, key, e);
    }
    NewDemandsCharge(targets, plan.contributions, at, x.legs, key, 0);
  }

  lemma EntryKeepsTarget(targets: map<TargetKey, Balance>, rs: map<ReservationId, Reservation>, lastAt: Option<int>,
                         plan: Plan, at: int, x: Entry, key: TargetKey)
    requires IsEntry(targets, plan, at, x) && key in targets && x.r.id !in rs
    requires ReservationsOk(targets, rs, lastAt) && SumsOk(targets, rs) && EpochsOk(targets, lastAt) && LimitsOk(targets, rs)
    requires lastAt.Some? ==> lastAt.value <= at
    ensures Balanced(AddReserved(targets, x.demand)[key], rs[x.r.id := x.r], key)
    ensures key.NodeKey? ==> Within(AddReserved(targets, x.demand)[key], rs[x.r.id := x.r], key)
  {
    EntryCharges(targets, plan, at, x, key);
    var b, amount := targets[key], if key in x.demand then x.demand[key] else 0;
    assert Balanced(b, rs, key);
    NewReservationBalances(b, rs, x.r, key, amount);
    assert AddReserved(targets, x.demand)[key] == b.(reserved := b.reserved + amount);
    if key.NodeKey? {
      assert Within(b, rs, key);
      forall e | EpochIndex(b.dimension, at).Some? && e > EpochIndex(b.dimension, at).value ensures Total(rs, ConsumedIn(e), key) == 0 {
        LaterEpochsUnused(targets, rs, lastAt, key, at, e);
      }
      EpochsLater(targets, lastAt, at);
      NewReservationWithin(b, rs, x.r, key, amount, at);
    }
  }

  lemma EntryKeeps(targets: map<TargetKey, Balance>, rs: map<ReservationId, Reservation>, lastAt: Option<int>, plan: Plan, at: int, x: Entry)
    requires IsEntry(targets, plan, at, x) && x.r.id !in rs
    requires ReservationsOk(targets, rs, lastAt) && SumsOk(targets, rs) && EpochsOk(targets, lastAt) && LimitsOk(targets, rs)
    requires lastAt.Some? ==> lastAt.value <= at
    ensures var after, all := AddReserved(targets, x.demand), rs[x.r.id := x.r];
            && SameDimensions(targets, after)
            && ReservationsOk(after, all, Some(at)) && SumsOk(after, all) && EpochsOk(after, Some(at)) && LimitsOk(after, all)
  {
    var after, all := AddReserved(targets, x.demand), rs[x.r.id := x.r];
    assert after.Keys == targets.Keys;
    ReservationsLater(targets, rs, lastAt, at);
    EpochsLater(targets, lastAt, at);
    NewDemandsWellFormed(targets, plan.contributions, at, x.legs);
    forall id | id in all ensures ReservationOk(after, id, all[id], at) {
      if id != x.r.id {
        assert ReservationOk(targets, id, rs[id], at);
      }
      FitsStay(targets, after, all[id].demands, all[id].demands, at);
    }
    forall key | key in after ensures Balanced(after[key], all, key) && (key.NodeKey? ==> Within(after[key], all, key)) {
      EntryKeepsTarget(targets, rs, lastAt, plan, at, x, key);
    }
  }

  lemma EntryActions(actions: map<Digest, ActionRecord>, rs: map<ReservationId, Reservation>, r: Reservation)
    requires ActionsOk(actions, rs) && r.id !in rs && r.status.ACTIVE? && r.generation == r.id.generation && r.action == r.id.action
    requires r.action in actions ==> actions[r.action].open.None?
    requires r.generation == if r.action in actions then actions[r.action].lastGeneration + 1 else 1
    ensures ActionsOk(actions[r.action := ActionRecord(r.generation, Some(r.id))], rs[r.id := r])
  {
    var after, all := actions[r.action := ActionRecord(r.generation, Some(r.id))], rs[r.id := r];
    forall id: ReservationId ensures id in all <==> (id.action in after && 1 <= id.generation <= after[id.action].lastGeneration) {
      assert id == ReservationId(id.action, id.generation);
    }
    forall id | id in all ensures all[id].status.ACTIVE? <==> after[id.action].open == Some(id) {
    }
  }

  lemma ReserveKeeps(s: State, e: Event, version: nat)
    requires e.Reserve? && ValidPlan(e.plan) && Inv(s) && ApplyReserve(s, e, version).Ok?
    requires s.lastAt.Some? ==> s.lastAt.value <= e.at
    ensures Inv(ApplyReserve(s, e, version).value.(lastAt := Some(e.at)))
  {
    hide NodesOk, TargetsOk, PolicyOk, ReservationsOk, SumsOk, EpochsOk, LimitsOk, AttemptsOk, ActionsOk, ApplyReserve, IsEntry, ValidPlan;
    var x := ReserveEffect(s, e, version);
    hide AddReserved, SameDimensions;
    EntryKeeps(s.targets, s.reservations, s.lastAt, e.plan, e.at, x);
    DimensionsStay(s.principal, s.nodes, s.policy, s.targets, AddReserved(s.targets, x.demand));
    EntryActions(s.actions, s.reservations, x.r);
    AttemptsStay(s.attempts, s.artifacts, s.slots, s.reservationAttempts, s.reservations, s.reservations[x.r.id := x.r]);
  }
}
