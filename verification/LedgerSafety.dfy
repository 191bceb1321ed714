// Safety of the ledger over every history the reducer accepts.
module LedgerSafety {
  import opened Common
  import opened Core
  import opened Decimals
  import opened Ledger
  import opened Charges
  import opened Movement
  import opened LedgerInvariant
  import opened LedgerAccounting
  import opened LedgerReserve

  // ---- Every history keeps the invariant -------------------------------------------------------

  lemma EmptyOk(principal: Party)
    ensures Inv(EmptyState(principal))
  {
  }

  lemma Later(s: State, at: int)
    requires Inv(s) && (s.lastAt.Some? ==> s.lastAt.value <= at)
    ensures Inv(s.(lastAt := Some(at)))
  {
    hide NodesOk, TargetsOk, PolicyOk, SumsOk, EpochsOk, LimitsOk, ActionsOk, AttemptsOk;
    ReservationsLater(s.targets, s.reservations, s.lastAt, at);
    EpochsLater(s.targets, s.lastAt, at);
  }

  lemma EventKeeps(s: State, e: Event, version: nat, rules: Rules)
    requires Inv(s) && ApplyEvent(s, e, version, rules).Ok?
    ensures Inv(ApplyEvent(s, e, version, rules).value)
    ensures ApplyEvent(s, e, version, rules).value.lastAt == Some(e.at)
    ensures s.lastAt.Some? ==> s.lastAt.value <= e.at
  {
    hide Inv, ApplyRegisterPolicy, ApplyRegisterGrant, ApplyRevoke, ApplyReserve, ApplyAccount, ApplyAdmit;
    match e
    case RegisterPolicy(at, policy, semantics) =>
      RegisterPolicyKeeps(s, policy, semantics, version, rules);
      Later(ApplyRegisterPolicy(s, policy, semantics, version, rules).value, e.at);
    case RegisterGrant(at, grant, semantics) =>
      RegisterGrantKeeps(s, grant, semantics, at, version, rules);
      Later(ApplyRegisterGrant(s, grant, semantics, at, version, rules).value, e.at);
    case Revoke(at, revocation) =>
      RevokeKeeps(s, revocation, at, version);
      Later(ApplyRevoke(s, revocation, at, version).value, e.at);
    case Reserve(_, _, _, _, _) =>
      ReserveKeeps(s, e, version);
    case Account(_, _, _, _, _, _) =>
      AccountKeeps(s, e);
      Later(ApplyAccount(s, e).value, e.at);
    case AdmitAttempt(at, admission) =>
      AdmitKeeps(s, admission, at, version);
      Later(ApplyAdmit(s, admission, at, version).value, e.at);
  }

  lemma {:induction false} EventsKeep(s: State, events: seq<Event>, version: nat, rules: Rules)
    requires Inv(s) && ApplyEvents(s, events, version, rules).Ok?
    ensures Inv(ApplyEvents(s, events, version, rules).value)
    decreases |events|
  {
    hide Inv, ApplyEvent;
    if events != [] {
      EventKeeps(s, events[0], version, rules);
      EventsKeep(ApplyEvent(s, events[0], version, rules).value, events[1..], version, rules);
    }
  }

  lemma Restamp(s: State, version: nat, head: Head)
    requires Inv(s)
    ensures Inv(s.(version := version, head := head))
  {
    hide NodesOk, TargetsOk, PolicyOk, ReservationsOk, SumsOk, EpochsOk, LimitsOk, ActionsOk, AttemptsOk;
  }

  lemma BatchEffect(s: State, events: seq<Event>, rules: Rules, t: State) returns (u: State)
    requires ApplyBatch(s, events, rules) == Ok(t)
    ensures ApplyEvents(s, events, s.version + 1, rules) == Ok(u)
    ensures t == u.(version := s.version + 1, head := Batch(s.principal, s.version + 1, s.head, events))
    ensures events != [] && |events| <= MAX_BATCH_EVENTS && t.version <= UINT64_MAX
  {
    hide ApplyEvents;
    u := ApplyEvents(s, events, s.version + 1, rules).value;
  }

  lemma BatchKeeps(s: State, events: seq<Event>, rules: Rules, t: State)
    requires Inv(s) && ApplyBatch(s, events, rules) == Ok(t)
    ensures Inv(t) && t.version == s.version + 1
  {
    hide Inv, ApplyEvents, ApplyBatch;
    var u := BatchEffect(s, events, rules, t);
    EventsKeep(s, events, s.version + 1, rules);
    Restamp(u, s.version + 1, Batch(s.principal, s.version + 1, s.head, events));
  }

  // The invariant holds after every accepted history, under any configuration of the reducer.
  lemma {:induction false} ReplayKeeps(principal: Party, batches: seq<seq<Event>>, rules: Rules)
    requires Replay(principal, batches, rules).Ok?
    ensures Inv(Replay(principal, batches, rules).value)
    decreases |batches|
  {
    hide Inv, ApplyBatch;
    if batches == [] {
      EmptyOk(principal);
    } else {
      var before := batches[..|batches| - 1];
      ReplayKeeps(principal, before, rules);
      BatchKeeps(Replay(principal, before, rules).value, batches[|batches| - 1], rules, Replay(principal, batches, rules).value);
    }
  }

  // ---- Conservation and capacity ---------------------------------------------------------------

  // Every balance is the sum of the reservations' own records, and no granted limit is ever exceeded.
  lemma CapacityIsConserved(principal: Party, batches: seq<seq<Event>>, rules: Rules, key: TargetKey)
    requires Replay(principal, batches, rules).Ok?
    requires key in Replay(principal, batches, rules).value.targets
    ensures var s := Replay(principal, batches, rules).value;
            var b := s.targets[key];
            && b.reserved == Total(s.reservations, Outstanding, key) && b.consumed == Total(s.reservations, Consumed, key)
            && b.restored == Total(s.reservations, Restored, key)
            && 0 <= b.reserved && 0 <= b.restored <= b.consumed
            && (key.NodeKey? && b.dimension.restoration.NONE? ==> b.consumed + b.reserved <= b.dimension.limit.atoms)
            && (key.NodeKey? && b.dimension.accounting.CAPACITY? ==> b.consumed - b.restored + b.reserved <= b.dimension.limit.atoms)
            && (key.NodeKey? && b.dimension.restoration.EPOCH? ==> forall e ::
                  Total(s.reservations, ConsumedIn(e), key) + Total(s.reservations, OutstandingIn(e), key) <= b.dimension.limit.atoms)
  {
    var s := Replay(principal, batches, rules).value;
    ReplayKeeps(principal, batches, rules);
    assert Balanced(s.targets[key], s.reservations, key);
    assert TargetOk(s.nodes, key, s.targets[key]);
    forall id | id in s.reservations ensures AllWellFormed(s.reservations[id].demands, s.reservations[id].status.ACTIVE?) {
      assert ReservationOk(s.targets, id, s.reservations[id], s.lastAt.value);
    }
    TotalOrder(s.reservations, key, 0);
    if key.NodeKey? {
      assert Within(s.targets[key], s.reservations, key);
    }
  }

  function OutstandingOf(d: Demand, status: Status): int {
    if status.ACTIVE? then d.reserved - d.consumed else 0
  }

  // reserved = consumed + released + outstanding, on every demand of every reservation ever made.
  lemma DemandsAreConserved(principal: Party, batches: seq<seq<Event>>, rules: Rules, id: ReservationId, i: nat)
    requires Replay(principal, batches, rules).Ok?
    requires id in Replay(principal, batches, rules).value.reservations
    requires i < |Replay(principal, batches, rules).value.reservations[id].demands|
    ensures var r := Replay(principal, batches, rules).value.reservations[id];
            var d := r.demands[i];
            && d.reserved == d.consumed + d.released + OutstandingOf(d, r.status)
            && 0 <= d.restored <= d.consumed <= d.reserved && 0 <= d.released
  {
    var s := Replay(principal, batches, rules).value;
    ReplayKeeps(principal, batches, rules);
    assert ReservationOk(s.targets, id, s.reservations[id], s.lastAt.value);
    assert WellFormed(s.reservations[id].demands[i], s.reservations[id].status.ACTIVE?);
  }

  // ---- Reserving: every ceiling on the path, now ------------------------------------------------

  lemma ReserveStep(s: State, e: Event, version: nat, rules: Rules, t: State)
    requires e.Reserve? && ApplyEvent(s, e, version, rules) == Ok(t)
    ensures ValidPlan(e.plan) && ApplyReserve(s, e, version).Ok?
    ensures t == ApplyReserve(s, e, version).value.(lastAt := Some(e.at))
  {
  }

  lemma AccountStep(s: State, e: Event, version: nat, rules: Rules, t: State)
    requires e.Account? && ApplyEvent(s, e, version, rules) == Ok(t)
    ensures ApplyAccount(s, e).Ok? && t == ApplyAccount(s, e).value.(lastAt := Some(e.at))
  {
  }

  // At the moment of its commit a reservation fits every target it charges, the principal policy's included.
  lemma ReservationFitsEveryTarget(s: State, e: Event, version: nat, rules: Rules, t: State, id: ReservationId, key: TargetKey)
    requires NodesOk(s.principal, s.nodes, s.targets) && PolicyOk(s.policy, s.targets)
    requires e.Reserve? && ApplyEvent(s, e, version, rules) == Ok(t)
    requires id == ReservationId(e.plan.action, e.plan.generation) && key in s.targets
    ensures id !in s.reservations && id in t.reservations && key in t.targets
    ensures Charge(t.reservations[id], Outstanding, key) > 0 ==> AvailableOf(t.targets[key], e.at) >= 0
    ensures t.targets[key] == s.targets[key].(reserved := s.targets[key].reserved + Charge(t.reservations[id], Outstanding, key))
    ensures t.reservations == s.reservations[id := t.reservations[id]] && t.reservations[id].status.ACTIVE?
  {
    hide ApplyEvent, ApplyReserve;
    ReserveStep(s, e, version, rules, t);
    var x := ReserveEffect(s, e, version);
    EntryCharges(s.targets, e.plan, e.at, x, key);
    var b, amount := s.targets[key], if key in x.demand then x.demand[key] else 0;
    assert t.targets[key] == b.(reserved := b.reserved + amount);
    AvailableAfter(b, amount, e.at);
  }

  lemma AvailableAfter(b: Balance, amount: int, at: int)
    ensures AvailableOf(b.(reserved := b.reserved + amount), at) == AvailableOf(b, at) - amount
  {
  }

  // A contribution falls under a dimension: the same kind and unit, and whatever the scope names is the contribution's.
  predicate FallsUnder(c: Contribution, domain: string, d: Dimension) {
    && c.quantity.kind == d.limit.kind && c.quantity.unit == d.limit.unit
    && (d.scope.asset.Some? ==> c.quantity.asset == d.scope.asset)
    && (d.scope.market.Some? ==> c.market == d.scope.market)
    && (d.scope.account.Some? ==> c.account == d.scope.account)
    && (d.scope.domain.Some? ==> d.scope.domain == Some(domain))
  }

  // The number of whole windows since the dimension's first one began.
  predicate InWindow(d: Dimension, at: int, n: int) {
    && d.epoch.Some? && n >= 0
    && d.epoch.value.anchor + n * d.epoch.value.lengthSeconds <= at < d.epoch.value.anchor + (n + 1) * d.epoch.value.lengthSeconds
  }

  // The leg one dimension demands of a contribution: at its own key, the exact amount at its own decimals, in its window.
  predicate LegIs(l: LegDraft, key: TargetKey, ref: TargetRef, c: Contribution, domain: string, d: Dimension, at: int) {
    && l.key == key && l.ref == ref && l.dimension == d && FallsUnder(c, domain, d) && d.sign.UNSIGNED?
    && l.amount * Pow10(c.quantity.decimals) == c.quantity.atoms * Pow10(d.limit.decimals)
    && (if d.restoration.EPOCH? then l.epoch.Some? && InWindow(d, at, l.epoch.value) else l.epoch.None?)
  }

  predicate NodeLegIs(l: LegDraft, id: AuthorityId, c: Contribution, domain: string, d: Dimension, at: int) {
    LegIs(l, NodeKey(id, d.dimensionId), NodeRef(id, d.dimensionId), c, domain, d, at)
  }

  predicate PolicyLegIs(l: LegDraft, id: PolicyId, c: Contribution, domain: string, d: Dimension, at: int) {
    LegIs(l, GlobalKey(DimensionIdentity(d)), PolicyRef(id, d.dimensionId), c, domain, d, at)
  }

  // Whether a dimension a contribution falls under can be charged with it.
  predicate Chargeable(c: Contribution, d: Dimension, at: int) {
    && d.sign.UNSIGNED?
    && Exact(c.quantity.atoms, c.quantity.decimals, d.limit.decimals)
    && (d.restoration.EPOCH? ==> d.epoch.Some? && d.epoch.value.anchor <= at)
  }

  predicate ValidDimensions(dims: seq<Dimension>) {
    forall i :: 0 <= i < |dims| ==> ValidDimension(dims[i])
  }

  lemma MatchIs(c: Contribution, domain: string, d: Dimension)
    ensures ContributionMatches(c, domain, d) <==> FallsUnder(c, domain, d)
  {
  }

  lemma WindowIs(d: Dimension, at: int)
    requires ValidDimension(d) && d.restoration.EPOCH?
    ensures EpochIndex(d, at).Some? <==> d.epoch.value.anchor <= at
    ensures EpochIndex(d, at).Some? ==> InWindow(d, at, EpochIndex(d, at).value)
  {
    hide ValidResource, ValidIdentifier, ValidUnit;
    if d.epoch.value.anchor <= at {
      var k, x := d.epoch.value.lengthSeconds, at - d.epoch.value.anchor;
      QuotientIs(x, k);
    }
  }

  lemma QuotientIs(x: int, k: int)
    requires x >= 0 && k > 0
    ensures x / k >= 0 && (x / k) * k <= x < (x / k + 1) * k
  {
    assert x == (x / k) * k + x % k;
  }

  // A leg is refused exactly when its dimension cannot be charged, and is the one demanded otherwise.
  lemma LegForIs(key: TargetKey, ref: TargetRef, d: Dimension, c: Contribution, domain: string, at: int)
    requires ValidDimension(d) && FallsUnder(c, domain, d)
    ensures LegFor(key, ref, d, c, at).Ok? <==> Chargeable(c, d, at)
    ensures LegFor(key, ref, d, c, at).Ok? ==> LegIs(LegFor(key, ref, d, c, at).value, key, ref, c, domain, d, at)
  {
    hide ValidResource, ValidIdentifier, ValidUnit, Exact;
    if d.restoration.EPOCH? {
      WindowIs(d, at);
    }
    if Exact(c.quantity.atoms, c.quantity.decimals, d.limit.decimals) {
      ScaledIsExact(c.quantity.atoms, c.quantity.decimals, d.limit.decimals);
    }
  }

  predicate DistinctLegs(ls: seq<LegDraft>) {
    forall i, j :: 0 <= i < j < |ls| ==> ls[i].key != ls[j].key
  }

  predicate DistinctDimensions(dims: seq<Dimension>) {
    forall i, j :: 0 <= i < j < |dims| ==> dims[i].dimensionId != dims[j].dimensionId
  }

  lemma {:induction false} DimensionsDiffer(terms: seq<Term>)
    requires DistinctKeys(terms)
    ensures DistinctDimensions(DimensionsOf(terms))
    decreases |terms|
  {
    if terms != [] {
      assert forall i :: 0 <= i < |terms[1..]| ==> terms[1..][i] == terms[i + 1];
      DimensionsDiffer(terms[1..]);
      if terms[0].DimensionTerm? {
        forall d | d in DimensionsOf(terms[1..]) ensures d.dimensionId != terms[0].dimension.dimensionId {
          DimensionsAreTerms(terms[1..], d);
          var i :| 0 <= i < |terms[1..]| && terms[1..][i] == DimensionTerm(d);
          assert KeyOf(terms[0]) != KeyOf(terms[i + 1]);
        }
      }
    }
  }

  // ---- The legs of one list of dimensions ----------------------------------------------------------

  // Which dimension each leg is for: in the list's order, each once, each chargeable one a contribution falls under.
  ghost predicate Picks(dims: seq<Dimension>, c: Contribution, domain: string, picks: seq<nat>) {
    Picked(dims, c, domain, picks) && Rising(picks) && NonePassed(dims, c, domain, picks)
  }

  predicate Picked(dims: seq<Dimension>, c: Contribution, domain: string, picks: seq<nat>) {
    forall i :: 0 <= i < |picks| ==> picks[i] < |dims| && FallsUnder(c, domain, dims[picks[i]])
  }

  predicate Rising(picks: seq<nat>) {
    forall i, j :: 0 <= i < j < |picks| ==> picks[i] < picks[j]
  }

  predicate NonePassed(dims: seq<Dimension>, c: Contribution, domain: string, picks: seq<nat>) {
    forall k :: 0 <= k < |dims| && FallsUnder(c, domain, dims[k]) ==> k in picks
  }

  predicate AllChargeable(dims: seq<Dimension>, c: Contribution, domain: string, at: int) {
    forall k :: 0 <= k < |dims| && FallsUnder(c, domain, dims[k]) ==> Chargeable(c, dims[k], at)
  }

  function Shifted(picks: seq<nat>): (r: seq<nat>)
    ensures |r| == |picks| && forall i :: 0 <= i < |r| ==> r[i] == picks[i] + 1
  {
    seq(|picks|, i requires 0 <= i < |picks| => picks[i] + 1)
  }

  lemma PicksSkip(dims: seq<Dimension>, c: Contribution, domain: string, picks: seq<nat>)
    requires dims != [] && Picks(dims[1..], c, domain, picks) && !FallsUnder(c, domain, dims[0])
    ensures Picks(dims, c, domain, Shifted(picks))
  {
    hide FallsUnder;
    forall k | 0 <= k < |dims| && FallsUnder(c, domain, dims[k]) ensures k in Shifted(picks) {
      assert dims[1..][k - 1] == dims[k];
      var i :| 0 <= i < |picks| && picks[i] == k - 1;
      assert Shifted(picks)[i] == k;
    }
  }

  lemma PicksTake(dims: seq<Dimension>, c: Contribution, domain: string, picks: seq<nat>)
    requires dims != [] && Picks(dims[1..], c, domain, picks) && FallsUnder(c, domain, dims[0])
    ensures Picks(dims, c, domain, [0] + Shifted(picks))
  {
    var all := [0] + Shifted(picks);
    assert Rising(all) by {
      hide Picked, NonePassed;
      assert forall i :: 0 < i < |all| ==> all[i] == picks[i - 1] + 1;
    }
    TakePicked(dims, c, domain, picks);
    TakeAll(dims, c, domain, picks);
    hide Picked, NonePassed, Rising;
  }

  lemma TakePicked(dims: seq<Dimension>, c: Contribution, domain: string, picks: seq<nat>)
    requires dims != [] && Picked(dims[1..], c, domain, picks) && FallsUnder(c, domain, dims[0])
    ensures Picked(dims, c, domain, [0] + Shifted(picks))
  {
    hide FallsUnder;
    var all := [0] + Shifted(picks);
    forall i | 0 <= i < |all| ensures all[i] < |dims| && FallsUnder(c, domain, dims[all[i]]) {
      assert i > 0 ==> all[i] == picks[i - 1] + 1 && dims[1..][picks[i - 1]] == dims[all[i]];
    }
  }

  lemma TakeAll(dims: seq<Dimension>, c: Contribution, domain: string, picks: seq<nat>)
    requires dims != [] && NonePassed(dims[1..], c, domain, picks)
    ensures NonePassed(dims, c, domain, [0] + Shifted(picks))
  {
    hide FallsUnder;
    var all := [0] + Shifted(picks);
    forall k | 0 <= k < |dims| && FallsUnder(c, domain, dims[k]) ensures k in all {
      if k == 0 {
        assert all[0] == 0;
      } else {
        assert dims[1..][k - 1] == dims[k];
        var i :| 0 <= i < |picks| && picks[i] == k - 1;
        assert all[i + 1] == k;
      }
    }
  }

  lemma ChargeableRest(dims: seq<Dimension>, c: Contribution, domain: string, at: int)
    requires dims != []
    ensures AllChargeable(dims, c, domain, at) <==>
              (FallsUnder(c, domain, dims[0]) ==> Chargeable(c, dims[0], at)) && AllChargeable(dims[1..], c, domain, at)
  {
    var rest := dims[1..];
    if AllChargeable(rest, c, domain, at) && (FallsUnder(c, domain, dims[0]) ==> Chargeable(c, dims[0], at)) {
      forall k | 0 <= k < |dims| && FallsUnder(c, domain, dims[k]) ensures Chargeable(c, dims[k], at) {
        assert k > 0 ==> rest[k - 1] == dims[k];
      }
    }
  }

  predicate NodeLegsFor(ls: seq<LegDraft>, id: AuthorityId, c: Contribution, domain: string, dims: seq<Dimension>, at: int, picks: seq<nat>) {
    && |picks| == |ls|
    && forall i :: 0 <= i < |ls| ==> picks[i] < |dims| && NodeLegIs(ls[i], id, c, domain, dims[picks[i]], at)
  }

  lemma NodeLegsShift(ls: seq<LegDraft>, id: AuthorityId, c: Contribution, domain: string, dims: seq<Dimension>, at: int, picks: seq<nat>)
    requires dims != [] && NodeLegsFor(ls, id, c, domain, dims[1..], at, picks)
    ensures NodeLegsFor(ls, id, c, domain, dims, at, Shifted(picks))
    ensures forall leg :: NodeLegIs(leg, id, c, domain, dims[0], at) ==> NodeLegsFor([leg] + ls, id, c, domain, dims, at, [0] + Shifted(picks))
  {
    hide NodeLegIs;
    forall leg | NodeLegIs(leg, id, c, domain, dims[0], at)
      ensures NodeLegsFor([leg] + ls, id, c, domain, dims, at, [0] + Shifted(picks))
    {
      var all := [0] + Shifted(picks);
      forall i | 0 <= i < |all| ensures all[i] < |dims| && NodeLegIs(([leg] + ls)[i], id, c, domain, dims[all[i]], at) {
        assert i > 0 ==> all[i] == picks[i - 1] + 1 && ([leg] + ls)[i] == ls[i - 1];
      }
    }
  }

  // A grant's legs for a contribution: exactly when every dimension it falls under can be charged, and then one leg each,
  // in the order of the grant's terms.
  lemma {:induction false} NodeLegsAre(id: AuthorityId, dims: seq<Dimension>, c: Contribution, domain: string, at: int) returns (picks: seq<nat>)
    requires ValidDimensions(dims)
    ensures NodeLegs(id, dims, c, domain, at).Ok? <==> AllChargeable(dims, c, domain, at)
    ensures NodeLegs(id, dims, c, domain, at).Ok? ==>
              Picks(dims, c, domain, picks) && NodeLegsFor(NodeLegs(id, dims, c, domain, at).value, id, c, domain, dims, at, picks)
    decreases |dims|
  {
    hide FallsUnder, Chargeable, LegIs, LegFor, ValidDimension, ContributionMatches;
    picks := [];
    if dims != [] {
      var rest := dims[1..];
      assert forall i :: 0 <= i < |rest| ==> rest[i] == dims[i + 1];
      hide Picks, AllChargeable;
      var more := NodeLegsAre(id, rest, c, domain, at);
      MatchIs(c, domain, dims[0]);
      ChargeableRest(dims, c, domain, at);
      var legs := NodeLegs(id, rest, c, domain, at);
      if legs.Ok? {
        NodeLegsShift(legs.value, id, c, domain, dims, at, more);
      }
      hide NodeLegsFor;
      if !FallsUnder(c, domain, dims[0]) {
        if legs.Ok? {
          PicksSkip(dims, c, domain, more);
          picks := Shifted(more);
        }
      } else {
        LegForIs(NodeKey(id, dims[0].dimensionId), NodeRef(id, dims[0].dimensionId), dims[0], c, domain, at);
        if NodeLegs(id, dims, c, domain, at).Ok? {
          PicksTake(dims, c, domain, more);
          picks := [0] + Shifted(more);
        }
      }
    }
  }

  lemma {:induction false} PolicyLegsAre(id: PolicyId, dims: seq<Dimension>, c: Contribution, domain: string, at: int) returns (picks: seq<nat>)
    requires ValidDimensions(dims)
    ensures PolicyLegs(id, dims, c, domain, at).Ok? <==> AllChargeable(dims, c, domain, at)
    ensures PolicyLegs(id, dims, c, domain, at).Ok? ==>
              var ls := PolicyLegs(id, dims, c, domain, at).value;
              && |picks| == |ls| && Picks(dims, c, domain, picks)
              && forall i :: 0 <= i < |ls| ==> PolicyLegIs(ls[i], id, c, domain, dims[picks[i]], at)
    decreases |dims|
  {
    hide FallsUnder, Chargeable, LegIs, LegFor, ValidDimension, ContributionMatches;
    picks := [];
    if dims != [] {
      var rest := dims[1..];
      assert forall i :: 0 <= i < |rest| ==> rest[i] == dims[i + 1];
      hide Picks, AllChargeable;
      var more := PolicyLegsAre(id, rest, c, domain, at);
      MatchIs(c, domain, dims[0]);
      ChargeableRest(dims, c, domain, at);
      if !FallsUnder(c, domain, dims[0]) {
        if PolicyLegs(id, rest, c, domain, at).Ok? {
          PicksSkip(dims, c, domain, more);
          picks := Shifted(more);
        }
      } else {
        LegForIs(GlobalKey(DimensionIdentity(dims[0])), PolicyRef(id, dims[0].dimensionId), dims[0], c, domain, at);
        if PolicyLegs(id, dims, c, domain, at).Ok? {
          PicksTake(dims, c, domain, more);
          picks := [0] + Shifted(more);
        }
      }
    }
  }

  // ---- The legs of a whole path --------------------------------------------------------------------

  // The dimensions of every grant from the leaf to the root.
  function LineageDimensions(path: seq<NodeRecord>): (r: seq<seq<Dimension>>)
    ensures |r| == |path| && forall k :: 0 <= k < |r| ==> r[k] == DimensionsOf(path[k].grant.terms)
  {
    seq(|path|, k requires 0 <= k < |path| => DimensionsOf(path[k].grant.terms))
  }

  // A dimension of one of several lists.
  datatype Place = Place(list: nat, index: nat)

  predicate PlaceBefore(a: Place, b: Place) {
    a.list < b.list || (a.list == b.list && a.index < b.index)
  }

  predicate IsPlace(lists: seq<seq<Dimension>>, c: Contribution, domain: string, place: Place) {
    place.list < |lists| && place.index < |lists[place.list]| && FallsUnder(c, domain, lists[place.list][place.index])
  }

  // Every place of the lists whose dimension a contribution falls under, list by list, each once.
  ghost predicate Places(lists: seq<seq<Dimension>>, c: Contribution, domain: string, places: seq<Place>) {
    && (forall i :: 0 <= i < |places| ==> IsPlace(lists, c, domain, places[i]))
    && (forall i, j :: 0 <= i < j < |places| ==> PlaceBefore(places[i], places[j]))
    && (forall place :: IsPlace(lists, c, domain, place) ==> place in places)
  }

  function InList(k: nat, picks: seq<nat>): (r: seq<Place>)
    ensures |r| == |picks| && forall i :: 0 <= i < |r| ==> r[i] == Place(k, picks[i])
  {
    seq(|picks|, i requires 0 <= i < |picks| => Place(k, picks[i]))
  }

  lemma PlacesSnoc(lists: seq<seq<Dimension>>, dims: seq<Dimension>, c: Contribution, domain: string, places: seq<Place>, picks: seq<nat>)
    requires Places(lists, c, domain, places) && Picks(dims, c, domain, picks)
    ensures Places(lists + [dims], c, domain, places + InList(|lists|, picks))
  {
    hide FallsUnder;
    var more, all := lists + [dims], places + InList(|lists|, picks);
    forall i | 0 <= i < |all| ensures IsPlace(more, c, domain, all[i]) {
      if i < |places| {
        assert IsPlace(lists, c, domain, places[i]);
      }
    }
    forall i, j | 0 <= i < j < |all| ensures PlaceBefore(all[i], all[j]) {
      if j < |places| {
        assert PlaceBefore(places[i], places[j]);
      } else if i < |places| {
        assert IsPlace(lists, c, domain, places[i]);
      }
    }
    forall place | IsPlace(more, c, domain, place) ensures place in all {
      if place.list < |lists| {
        assert IsPlace(lists, c, domain, place);
      } else {
        var i :| 0 <= i < |picks| && picks[i] == place.index;
        assert all[|places| + i] == place;
      }
    }
  }

  predicate AllListsChargeable(lists: seq<seq<Dimension>>, c: Contribution, domain: string, at: int) {
    forall k :: 0 <= k < |lists| ==> AllChargeable(lists[k], c, domain, at)
  }

  predicate LineageLegIs(path: seq<NodeRecord>, l: LegDraft, c: Contribution, domain: string, place: Place, at: int) {
    && place.list < |path| && place.index < |DimensionsOf(path[place.list].grant.terms)|
    && NodeLegIs(l, path[place.list].id, c, domain, DimensionsOf(path[place.list].grant.terms)[place.index], at)
  }

  lemma {:induction false} LineageLegsSplit(path: seq<NodeRecord>, c: Contribution, domain: string, at: int)
    requires path != []
    ensures var front, last := path[..|path| - 1], path[|path| - 1];
            var own, above := LineageLegs(front, c, domain, at), NodeLegs(last.id, DimensionsOf(last.grant.terms), c, domain, at);
            && (LineageLegs(path, c, domain, at).Ok? <==> own.Ok? && above.Ok?)
            && (own.Ok? && above.Ok? ==> LineageLegs(path, c, domain, at) == Ok(own.value + above.value))
    decreases |path|
  {
    hide NodeLegs, DimensionsOf;
    var front, last := path[..|path| - 1], path[|path| - 1];
    if |path| == 1 {
      assert front == [] && path[1..] == [];
      assert LineageLegs([], c, domain, at) == Ok([]);
      var above := NodeLegs(last.id, DimensionsOf(last.grant.terms), c, domain, at);
      if above.Ok? {
        assert [] + above.value == above.value && above.value + [] == above.value;
      }
    } else {
      assert path[1..][..|path[1..]| - 1] == front[1..] && path[1..][|path[1..]| - 1] == last;
      LineageLegsSplit(path[1..], c, domain, at);
      var first := NodeLegs(path[0].id, DimensionsOf(path[0].grant.terms), c, domain, at);
      var own, above := LineageLegs(front[1..], c, domain, at), NodeLegs(last.id, DimensionsOf(last.grant.terms), c, domain, at);
      if first.Ok? && own.Ok? && above.Ok? {
        assert first.value + (own.value + above.value) == (first.value + own.value) + above.value;
      }
    }
  }

  predicate ValidPathTerms(path: seq<NodeRecord>) {
    forall k :: 0 <= k < |path| ==> ValidTerms(path[k].grant.terms)
  }

  lemma TermDimensionsValid(terms: seq<Term>)
    requires ValidTerms(terms)
    ensures ValidDimensions(DimensionsOf(terms))
  {
    hide ValidDimension, DistinctKeys;
    var dims := DimensionsOf(terms);
    forall i | 0 <= i < |dims| ensures ValidDimension(dims[i]) {
      DimensionsAreTerms(terms, dims[i]);
    }
  }

  // The legs of a lineage, in the order of its grants and of each grant's terms.
  lemma {:induction false} LineageLegsAre(path: seq<NodeRecord>, c: Contribution, domain: string, at: int) returns (places: seq<Place>)
    requires ValidPathTerms(path)
    ensures LineageLegs(path, c, domain, at).Ok? <==> AllListsChargeable(LineageDimensions(path), c, domain, at)
    ensures LineageLegs(path, c, domain, at).Ok? ==>
              var ls := LineageLegs(path, c, domain, at).value;
              && |places| == |ls| && Places(LineageDimensions(path), c, domain, places)
              && forall i :: 0 <= i < |ls| ==> LineageLegIs(path, ls[i], c, domain, places[i], at)
    decreases |path|
  {
    hide DimensionsOf, NodeLegs, NodeLegIs, AllChargeable, Picks, ValidTerms, Places;
    if path == [] {
      places := [];
      NoPlaces(c, domain);
      assert LineageDimensions(path) == [];
    } else {
      var front, last := path[..|path| - 1], path[|path| - 1];
      var dims := DimensionsOf(last.grant.terms);
      places := LineageLegsAre(front, c, domain, at);
      TermDimensionsValid(last.grant.terms);
      var picks := NodeLegsAre(last.id, dims, c, domain, at);
      LineageLegsSplit(path, c, domain, at);
      hide LineageLegs;
      var lists := LineageDimensions(front);
      assert LineageDimensions(path) == lists + [dims];
      assert AllListsChargeable(LineageDimensions(path), c, domain, at) <==> AllListsChargeable(lists, c, domain, at) && AllChargeable(dims, c, domain, at) by {
        ListsSnoc(lists, dims, c, domain, at);
      }
      if LineageLegs(path, c, domain, at).Ok? {
        PicksInRange(dims, c, domain, picks);
        PlacesSnoc(lists, dims, c, domain, places, picks);
        places := places + InList(|front|, picks);
      }
    }
  }

  lemma NoPlaces(c: Contribution, domain: string)
    ensures Places([], c, domain, [])
  {
  }

  lemma PicksInRange(dims: seq<Dimension>, c: Contribution, domain: string, picks: seq<nat>)
    requires Picks(dims, c, domain, picks)
    ensures forall i :: 0 <= i < |picks| ==> picks[i] < |dims|
  {
  }

  lemma ListsSnoc(lists: seq<seq<Dimension>>, dims: seq<Dimension>, c: Contribution, domain: string, at: int)
    ensures AllListsChargeable(lists + [dims], c, domain, at) <==> AllListsChargeable(lists, c, domain, at) && AllChargeable(dims, c, domain, at)
  {
    hide AllChargeable;
    var more := lists + [dims];
    assert more[|lists|] == dims && forall k :: 0 <= k < |lists| ==> more[k] == lists[k];
  }

  // The dimensions a contribution is held against: those of its lineage, then those of the principal policy.
  function PathDimensions(path: seq<NodeRecord>, policy: PolicyRecord): seq<seq<Dimension>> {
    LineageDimensions(path) + [DimensionsOf(policy.policy.terms)]
  }

  predicate PathLegIs(path: seq<NodeRecord>, policy: PolicyRecord, l: LegDraft, c: Contribution, domain: string, place: Place, at: int) {
    if place.list < |path| then LineageLegIs(path, l, c, domain, place, at)
    else
      && place.index < |DimensionsOf(policy.policy.terms)|
      && PolicyLegIs(l, policy.id, c, domain, DimensionsOf(policy.policy.terms)[place.index], at)
  }

  // Something of the lineage itself, not of the policy alone, holds the contribution.
  ghost predicate HeldByLineage(path: seq<NodeRecord>, c: Contribution, domain: string) {
    exists place :: IsPlace(LineageDimensions(path), c, domain, place)
  }

  // The legs of a contribution are exactly those its path demands: one for every dimension it falls under, of every grant
  // from leaf to root and then of the principal policy, in that order; and it is refused exactly when one of them cannot
  // be charged, or when it must be held and no grant holds it.
  lemma LegsAreExact(path: seq<NodeRecord>, policy: PolicyRecord, c: Contribution, domain: string, at: int) returns (places: seq<Place>)
    requires ValidPathTerms(path) && ValidTerms(policy.policy.terms)
    ensures ContributionLegs(path, policy, c, domain, at).Ok? <==>
              AllListsChargeable(PathDimensions(path, policy), c, domain, at) && (c.required ==> HeldByLineage(path, c, domain))
    ensures ContributionLegs(path, policy, c, domain, at).Ok? ==>
              var ls := ContributionLegs(path, policy, c, domain, at).value;
              && |places| == |ls| && Places(PathDimensions(path, policy), c, domain, places)
              && forall i :: 0 <= i < |ls| ==> PathLegIs(path, policy, ls[i], c, domain, places[i], at)
  {
    hide DimensionsOf, LineageLegs, PolicyLegs, LegIs, AllChargeable, Picks, ValidTerms, Places, IsPlace;
    var dims, lists := DimensionsOf(policy.policy.terms), LineageDimensions(path);
    var first := LineageLegsAre(path, c, domain, at);
    TermDimensionsValid(policy.policy.terms);
    var picks := PolicyLegsAre(policy.id, dims, c, domain, at);
    ListsSnoc(lists, dims, c, domain, at);
    places := first;
    if LineageLegs(path, c, domain, at).Ok? {
      Held(lists, c, domain, first);
      if PolicyLegs(policy.id, dims, c, domain, at).Ok? {
        PicksInRange(dims, c, domain, picks);
        PlacesSnoc(lists, dims, c, domain, first, picks);
        places := first + InList(|path|, picks);
      }
    }
  }

  lemma Held(lists: seq<seq<Dimension>>, c: Contribution, domain: string, places: seq<Place>)
    requires Places(lists, c, domain, places)
    ensures places != [] <==> exists place :: IsPlace(lists, c, domain, place)
  {
    if places != [] {
      assert IsPlace(lists, c, domain, places[0]);
    }
  }

  predicate DistinctNodes(lineage: seq<NodeRecord>) {
    forall i, j :: 0 <= i < j < |lineage| ==> lineage[i].id != lineage[j].id
  }

  // Legs at different places of one path charge different targets.
  lemma PlacesCharge(path: seq<NodeRecord>, policy: PolicyRecord, ls: seq<LegDraft>, c: Contribution, domain: string, places: seq<Place>, at: int)
    requires DistinctNodes(path) && ValidPathTerms(path) && ValidTerms(policy.policy.terms)
    requires |places| == |ls| && Places(PathDimensions(path, policy), c, domain, places)
    requires forall i :: 0 <= i < |ls| ==> PathLegIs(path, policy, ls[i], c, domain, places[i], at)
    ensures DistinctLegs(ls)
  {
    hide DimensionsOf, DistinctKeys, FallsUnder, InWindow, Pow10, ValidDimension;
    forall i, j | 0 <= i < j < |ls| ensures ls[i].key != ls[j].key {
      var a, b := places[i], places[j];
      assert PathLegIs(path, policy, ls[i], c, domain, a, at) && PathLegIs(path, policy, ls[j], c, domain, b, at);
      assert PlaceBefore(a, b);
      if a.list < |path| {
        DimensionsDiffer(path[a.list].grant.terms);
      } else {
        DimensionsDiffer(policy.policy.terms);
        var dims := DimensionsOf(policy.policy.terms);
        assert IsPlace(PathDimensions(path, policy), c, domain, b);
        assert DimensionIdentity(dims[a.index]).dimensionId != DimensionIdentity(dims[b.index]).dimensionId;
      }
    }
  }

  // How deep a grant sits below its root, read off its identity alone.
  function Generations(id: AuthorityId): nat {
    match id.preimage.lineage
    case ROOT(_) => 0
    case DELEGATION(parent, _) => 1 + Generations(parent)
  }

  // An identity contains its parent's, so no grant can appear twice on a path.
  lemma {:induction false} LineageDescends(principal: Party, nodes: map<AuthorityId, NodeRecord>, targets: map<TargetKey, Balance>,
                                           leaf: AuthorityId, room: nat)
    requires NodesOk(principal, nodes, targets) && ResolveLineage(nodes, leaf, room).Ok?
    ensures var lineage := ResolveLineage(nodes, leaf, room).value;
            lineage[0].id == leaf && forall i :: 0 <= i < |lineage| ==> Generations(lineage[i].id) == |lineage| - 1 - i
    decreases room
  {
    var node := nodes[leaf];
    assert node.id == leaf && node.grant == leaf.preimage;
    if node.grant.lineage.DELEGATION? {
      LineageDescends(principal, nodes, targets, node.grant.lineage.parent, room - 1);
    }
  }

  // What every resolved lineage of a reachable ledger is.
  lemma LineageShape(s: State, leaf: AuthorityId)
    requires NodesOk(s.principal, s.nodes, s.targets) && ResolveLineage(s.nodes, leaf, MAX_LINEAGE_LENGTH).Ok?
    ensures var path := ResolveLineage(s.nodes, leaf, MAX_LINEAGE_LENGTH).value; DistinctNodes(path) && ValidPathTerms(path)
  {
    hide ResolveLineage, ValidTerms;
    LineageRegistered(s.principal, s.nodes, s.targets, leaf, MAX_LINEAGE_LENGTH);
    LineageDescends(s.principal, s.nodes, s.targets, leaf, MAX_LINEAGE_LENGTH);
    var path := ResolveLineage(s.nodes, leaf, MAX_LINEAGE_LENGTH).value;
    forall k | 0 <= k < |path| ensures ValidTerms(path[k].grant.terms) {
      assert ValidGrant(path[k].id.preimage) && path[k].grant == path[k].id.preimage;
    }
  }

  // In every reachable ledger, for every grant and contribution: the legs are exactly those of the path, no target is
  // charged twice, and a refusal is for one of the two reasons.
  lemma PathIsExact(s: State, leaf: AuthorityId, c: Contribution, domain: string, at: int) returns (places: seq<Place>)
    requires NodesOk(s.principal, s.nodes, s.targets) && PolicyOk(s.policy, s.targets) && s.policy.Some?
    requires ResolveLineage(s.nodes, leaf, MAX_LINEAGE_LENGTH).Ok?
    ensures var path, policy := ResolveLineage(s.nodes, leaf, MAX_LINEAGE_LENGTH).value, s.policy.value;
            var legs := ContributionLegs(path, policy, c, domain, at);
            && (legs.Ok? <==> AllListsChargeable(PathDimensions(path, policy), c, domain, at) && (c.required ==> HeldByLineage(path, c, domain)))
            && (legs.Ok? ==>
                  && |places| == |legs.value| && Places(PathDimensions(path, policy), c, domain, places) && DistinctLegs(legs.value)
                  && forall i :: 0 <= i < |legs.value| ==> PathLegIs(path, policy, legs.value[i], c, domain, places[i], at))
  {
    hide ResolveLineage, ContributionLegs, AllListsChargeable, Places, PathLegIs, HeldByLineage, ValidTerms, NodesOk;
    var path := ResolveLineage(s.nodes, leaf, MAX_LINEAGE_LENGTH).value;
    LineageShape(s, leaf);
    places := LegsAreExact(path, s.policy.value, c, domain, at);
    if ContributionLegs(path, s.policy.value, c, domain, at).Ok? {
      PlacesCharge(path, s.policy.value, ContributionLegs(path, s.policy.value, c, domain, at).value, c, domain, places, at);
    }
  }

  // ---- Closing: always possible, and it undoes the reservation ----------------------------------

  function Remaining(ds: seq<Demand>): (r: seq<int>)
    ensures |r| == |ds|
  {
    seq(|ds|, i requires 0 <= i < |ds| => ds[i].reserved - ds[i].consumed)
  }

  lemma {:induction false} LegsRelease(targets: map<TargetKey, Balance>, legs: seq<Leg>, from: nat, amount: int)
    requires ExactOn(legs, amount, from) && forall i :: 0 <= i < |legs| ==> legs[i].key in targets
    ensures ForEachLeg(targets, legs, from, amount, CLOSE).Ok?
    decreases |legs|
  {
    if legs != [] {
      var leg := legs[0];
      assert forall i :: 0 <= i < |legs[1..]| ==> legs[1..][i] == legs[i + 1];
      assert RescaleExact(amount, from, leg.decimals) == Some(Scaled(amount, from, leg.decimals));
      var next := UpdateBalance(targets[leg.key], Scaled(amount, from, leg.decimals), leg.epoch, CLOSE).value;
      LegsRelease(targets[leg.key := next], legs[1..], from, amount);
    }
  }

  lemma {:induction false} DemandsRelease(targets: map<TargetKey, Balance>, ds: seq<Demand>)
    requires AllWellFormed(ds, true)
    requires forall i, j :: 0 <= i < |ds| && 0 <= j < |ds[i].legs| ==> ds[i].legs[j].key in targets
    ensures MoveDemands(targets, ds, Remaining(ds), CLOSE).Ok?
    decreases |ds|
  {
    if ds != [] {
      var d, from := ds[0], ds[0].contribution.quantity.decimals;
      LegSumAdds(d.legs, NodeKeyOf(d), AnyLeg, d.reserved, d.consumed, from);
      LegsRelease(targets, d.legs, from, d.reserved - d.consumed);
      var moved := ForEachLeg(targets, d.legs, from, d.reserved - d.consumed, CLOSE).value;
      LegsEffect(targets, d.legs, from, d.reserved - d.consumed, CLOSE, NodeKeyOf(d));
      assert Remaining(ds)[1..] == Remaining(ds[1..]);
      assert forall i :: 0 <= i < |ds[1..]| ==> ds[1..][i] == ds[i + 1];
      DemandsRelease(moved, ds[1..]);
    }
  }

  // Any key will do where a statement holds for all of them.
  function NodeKeyOf(d: Demand): TargetKey {
    GlobalKey(Dimension("", QuantityBound(d.contribution.quantity.kind, "", 0, 0), BUDGET, NONE, None, UNSIGNED, Scope(None, None, None, None)))
  }

  function CloseOf(r: Reservation, at: int, evidence: Evidence): Event {
    Event.Account(at, CLOSE, r.id, r.generation, evidence, Remaining(r.demands))
  }

  // Whatever was consumed, an active reservation can always be closed by exactly its remainder.
  lemma CloseNeverRefuses(s: State, id: ReservationId, at: int, evidence: Evidence, version: nat, rules: Rules)
    requires Inv(s) && id in s.reservations && s.reservations[id].status.ACTIVE?
    requires s.lastAt.Some? && s.lastAt.value <= at
    ensures ApplyEvent(s, CloseOf(s.reservations[id], at, evidence), version, rules).Ok?
  {
    hide NodesOk, TargetsOk, PolicyOk, SumsOk, EpochsOk, LimitsOk, ActionsOk, AttemptsOk;
    var r := s.reservations[id];
    assert ReservationOk(s.targets, id, r, s.lastAt.value);
    DemandsRelease(s.targets, r.demands);
    forall i | 0 <= i < |r.demands| ensures Remaining(r.demands)[i] >= 0 {
      assert WellFormed(r.demands[i], true);
    }
    assert ApplyAccount(s, CloseOf(r, at, evidence)).Ok?;
  }

  // What a close leaves: the reservation closed, everything not consumed released, nothing else changed.
  lemma CloseReleases(s: State, r: Reservation, at: int, evidence: Evidence, version: nat, rules: Rules, t: State, key: TargetKey, time: int)
    requires r.id in s.reservations && s.reservations[r.id] == r && r.status.ACTIVE?
    requires ReservationOk(s.targets, r.id, r, time)
    requires ApplyEvent(s, CloseOf(r, at, evidence), version, rules) == Ok(t)
    ensures r.id in t.reservations && t.reservations == s.reservations[r.id := t.reservations[r.id]]
    ensures t.reservations[r.id].status.CLOSED? && AllWellFormed(t.reservations[r.id].demands, false)
    ensures SameShape(r.demands, t.reservations[r.id].demands)
    ensures t.attempts == s.attempts && t.nodes == s.nodes && t.policy == s.policy
    ensures key in s.targets ==>
      key in t.targets && t.targets[key] == s.targets[key].(reserved := s.targets[key].reserved - Charge(r, Outstanding, key))
  {
    hide ApplyEvent, ApplyAccount;
    var e := CloseOf(r, at, evidence);
    AccountStep(s, e, version, rules, t);
    var a := AccountEffect(s, e);
    DemandsFollow(s.targets, r.demands, e.amounts, CLOSE, true, key);
    ClosedHoldsNothing(a.t.demands, key);
    CloseMovesOnlyReleased(s.targets, r.demands, e.amounts);
    CloseKeepsUsed(r.demands, a.t.demands, key);
  }

  lemma {:induction false} CloseKeepsUsed(ds: seq<Demand>, es: seq<Demand>, key: TargetKey)
    requires |ds| == |es| && forall i :: 0 <= i < |ds| ==> es[i] == ds[i].(released := es[i].released)
    ensures DemandsCharge(es, false, Consumed, key) == DemandsCharge(ds, true, Consumed, key)
    ensures DemandsCharge(es, false, Restored, key) == DemandsCharge(ds, true, Restored, key)
    decreases |ds|
  {
    if ds != [] {
      assert es[0] == ds[0].(released := es[0].released);
      assert forall i :: 0 <= i < |ds[1..]| ==> ds[1..][i] == ds[i + 1] && es[1..][i] == es[i + 1];
      CloseKeepsUsed(ds[1..], es[1..], key);
    }
  }

  lemma {:induction false} CloseMovesOnlyReleased(targets: map<TargetKey, Balance>, ds: seq<Demand>, amounts: seq<int>)
    requires |ds| == |amounts| && MoveDemands(targets, ds, amounts, CLOSE).Ok?
    ensures var es := MoveDemands(targets, ds, amounts, CLOSE).value.1;
            |es| == |ds| && forall i :: 0 <= i < |ds| ==> es[i] == ds[i].(released := es[i].released)
    decreases |ds|
  {
    if ds != [] {
      var moved := ForEachLeg(targets, ds[0].legs, ds[0].contribution.quantity.decimals, amounts[0], CLOSE).value;
      CloseMovesOnlyReleased(moved, ds[1..], amounts[1..]);
    }
  }

  // Only consuming raises what a reservation records as consumed.
  lemma {:induction false} ConsumedMoves(targets: map<TargetKey, Balance>, ds: seq<Demand>, amounts: seq<int>, kind: AccountingKind)
    requires |ds| == |amounts| && MoveDemands(targets, ds, amounts, kind).Ok? && !kind.CONSUME?
    ensures var es := MoveDemands(targets, ds, amounts, kind).value.1;
            |es| == |ds| && forall i :: 0 <= i < |ds| ==> es[i].consumed == ds[i].consumed
    decreases |ds|
  {
    if ds != [] {
      var moved := ForEachLeg(targets, ds[0].legs, ds[0].contribution.quantity.decimals, amounts[0], kind).value;
      ConsumedMoves(moved, ds[1..], amounts[1..], kind);
    }
  }

  // Reserving and then closing without any consumption leaves every balance exactly as it was.
  lemma CloseUndoesReserve(s: State, reserve: Event, v: nat, mid: State, r: Reservation,
                           at: int, evidence: Evidence, w: nat, t: State, rules: Rules, key: TargetKey)
    requires Inv(s) && reserve.Reserve? && ApplyEvent(s, reserve, v, rules) == Ok(mid)
    requires r.id == ReservationId(reserve.plan.action, reserve.plan.generation) && r.id in mid.reservations && mid.reservations[r.id] == r
    requires ApplyEvent(mid, CloseOf(r, at, evidence), w, rules) == Ok(t)
    requires key in s.targets
    ensures key in t.targets && t.targets[key] == s.targets[key]
  {
    hide ApplyEvent, NodesOk, TargetsOk, PolicyOk, SumsOk, EpochsOk, LimitsOk, ActionsOk, AttemptsOk, CloseOf;
    EventKeeps(s, reserve, v, rules);
    assert ReservationOk(mid.targets, r.id, r, reserve.at);
    ReservationFitsEveryTarget(s, reserve, v, rules, mid, r.id, key);
    CloseReleases(mid, r, at, evidence, w, rules, t, key, reserve.at);
  }

  lemma {:induction false} ClosedHoldsNothing(ds: seq<Demand>, key: TargetKey)
    ensures DemandsCharge(ds, false, Outstanding, key) == 0
    decreases |ds|
  {
    if ds != [] {
      ClosedHoldsNothing(ds[1..], key);
    }
  }

  // ---- Delegation depth --------------------------------------------------------------------------

  lemma {:induction false} DepthAndLength(principal: Party, lineage: seq<NodeRecord>, at: int)
    requires lineage != [] && NodesRefusal(principal, lineage, at).None?
    requires forall i :: 0 <= i < |lineage| ==> ValidGrant(lineage[i].grant)
    ensures EffectiveDepth(lineage) + |lineage| <= MAX_LINEAGE_LENGTH
    decreases |lineage|
  {
    DelegateDepthBound(lineage[0].grant.terms);
    if |lineage| > 1 {
      DepthAndLength(principal, lineage[1..], at);
    }
  }

  lemma {:induction false} DelegateDepthBound(terms: seq<Term>)
    requires forall i :: 0 <= i < |terms| && terms[i].RightTerm? && terms[i].right.DELEGATE? ==> terms[i].right.maxDepth <= MAX_DELEGATION_DEPTH
    ensures DelegateDepth(terms) <= MAX_DELEGATION_DEPTH
    decreases |terms|
  {
    if terms != [] {
      assert forall i :: 0 <= i < |terms[1..]| ==> terms[1..][i] == terms[i + 1];
      DelegateDepthBound(terms[1..]);
    }
  }

  // The absolute length bound never refuses a delegation the depth meet allows.
  lemma LengthBoundUnreachable(s: State, lineage: seq<NodeRecord>, at: int)
    requires lineage != [] && LineageRefusal(s, lineage, at).None?
    requires forall i :: 0 <= i < |lineage| ==> ValidGrant(lineage[i].grant)
    requires EffectiveDepth(lineage) >= 1
    ensures |lineage| < MAX_LINEAGE_LENGTH
  {
    DepthAndLength(s.principal, lineage, at);
  }

  // ---- Attempts ----------------------------------------------------------------------------------

  // One attempt per reservation, per artifact and per venue slot, over the principal's whole history.
  lemma AttemptsAreUnique(principal: Party, batches: seq<seq<Event>>, rules: Rules, a: AttemptId, b: AttemptId)
    requires Replay(principal, batches, rules).Ok?
    requires a in Replay(principal, batches, rules).value.attempts && b in Replay(principal, batches, rules).value.attempts
    ensures var attempts := Replay(principal, batches, rules).value.attempts;
            var x, y := attempts[a].admission, attempts[b].admission;
            (x.reservation == y.reservation || x.artifact == y.artifact || (x.slot.Some? && x.slot == y.slot)) ==> a == b
  {
    ReplayKeeps(principal, batches, rules);
    var s := Replay(principal, batches, rules).value;
    assert AttemptOk(a, s.attempts[a].admission, s.reservations, s.artifacts, s.slots);
    assert AttemptOk(b, s.attempts[b].admission, s.reservations, s.artifacts, s.slots);
  }

  // ---- Generations ---------------------------------------------------------------------------------

  // At most one generation of an action is open, and it is the latest one.
  lemma OneOpenGeneration(principal: Party, batches: seq<seq<Event>>, rules: Rules, a: ReservationId, b: ReservationId)
    requires Replay(principal, batches, rules).Ok?
    requires a in Replay(principal, batches, rules).value.reservations && b in Replay(principal, batches, rules).value.reservations
    requires a.action == b.action && Replay(principal, batches, rules).value.reservations[a].status.ACTIVE?
    ensures b.generation <= a.generation
    ensures Replay(principal, batches, rules).value.reservations[b].status.ACTIVE? ==> a == b
  {
    ReplayKeeps(principal, batches, rules);
  }

  // ---- The head commits to the history -------------------------------------------------------------

  lemma {:induction false} HeadShape(principal: Party, batches: seq<seq<Event>>, rules: Rules)
    requires Replay(principal, batches, rules).Ok?
    ensures var s := Replay(principal, batches, rules).value;
            s.version == |batches| && s.principal == principal
    decreases |batches|
  {
    hide ApplyEvents;
    if batches != [] {
      var before := batches[..|batches| - 1];
      HeadShape(principal, before, rules);
      EventsFrame(Replay(principal, before, rules).value, batches[|batches| - 1], |batches|, rules);
    }
  }

  lemma EventFrame(s: State, e: Event, version: nat, rules: Rules)
    requires ApplyEvent(s, e, version, rules).Ok?
    ensures ApplyEvent(s, e, version, rules).value.principal == s.principal
  {
    match e
    case RegisterGrant(at, grant, semantics) => var node := RegisterGrantEffect(s, grant, semantics, at, version, rules);
    case AdmitAttempt(at, admission) => AdmitEffect(s, admission, at, version);
    case _ =>
  }

  lemma {:induction false} EventsFrame(s: State, events: seq<Event>, version: nat, rules: Rules)
    requires ApplyEvents(s, events, version, rules).Ok?
    ensures ApplyEvents(s, events, version, rules).value.principal == s.principal
    decreases |events|
  {
    hide ApplyEvent;
    if events != [] {
      EventFrame(s, events[0], version, rules);
      EventsFrame(ApplyEvent(s, events[0], version, rules).value, events[1..], version, rules);
    }
  }

  // Two accepted histories with the same head are the same history: no batch can be altered, dropped or reordered.
  lemma {:induction false} HeadDeterminesHistory(p: Party, q: Party, a: seq<seq<Event>>, b: seq<seq<Event>>, rules: Rules)
    requires Replay(p, a, rules).Ok? && Replay(q, b, rules).Ok?
    requires Replay(p, a, rules).value.head == Replay(q, b, rules).value.head
    ensures p == q && a == b
    decreases |a|
  {
    hide ApplyEvents;
    HeadShape(p, a, rules);
    HeadShape(q, b, rules);
    if a != [] && b != [] {
      var x, y := a[..|a| - 1], b[..|b| - 1];
      HeadDeterminesHistory(p, q, x, y, rules);
      assert a == x + [a[|a| - 1]] && b == y + [b[|b| - 1]];
    }
  }
}
