// Consuming, closing and restoring keep the ledger invariant.
module LedgerAccounting {
  import opened Common
  import opened Core
  import opened Decimals
  import opened Ledger
  import opened Charges
  import opened Movement
  import opened LedgerInvariant

  ghost predicate SameDimensions(before: map<TargetKey, Balance>, after: map<TargetKey, Balance>) {
    && before.Keys == after.Keys
    && forall key :: key in before ==> after[key].dimension == before[key].dimension
  }

  lemma DimensionsStay(principal: Party, nodes: map<AuthorityId, NodeRecord>, policy: Option<PolicyRecord>,
                       before: map<TargetKey, Balance>, after: map<TargetKey, Balance>)
    requires NodesOk(principal, nodes, before) && TargetsOk(nodes, before) && PolicyOk(policy, before)
    requires SameDimensions(before, after)
    ensures NodesOk(principal, nodes, after) && TargetsOk(nodes, after) && PolicyOk(policy, after)
  {
    forall key | key in after ensures TargetOk(nodes, key, after[key]) {
      assert TargetOk(nodes, key, before[key]);
    }
    forall id | id in nodes ensures NodeTargets(after, id) {
      assert NodeTargets(before, id);
    }
  }

  lemma FitsStay(before: map<TargetKey, Balance>, after: map<TargetKey, Balance>, ds: seq<Demand>, es: seq<Demand>, time: int)
    requires SameDimensions(before, after) && LegsFit(before, ds, time)
    requires |ds| == |es| && forall i :: 0 <= i < |ds| ==> ds[i].legs == es[i].legs
    ensures LegsFit(after, es, time)
  {
  }

  // The event's own reservation, before and after, and the targets it moved.
  datatype Posting = Posting(r: Reservation, t: Reservation, targets: map<TargetKey, Balance>)

  ghost predicate IsPosting(targets: map<TargetKey, Balance>, amounts: seq<int>, kind: AccountingKind, a: Posting) {
    && |amounts| == |a.r.demands| && Amounts(amounts)
    && (kind.RESTORE? || a.r.status.ACTIVE?)
    && MoveDemands(targets, a.r.demands, amounts, kind).Ok?
    && a.targets == MoveDemands(targets, a.r.demands, amounts, kind).value.0
    && a.t == a.r.(demands := MoveDemands(targets, a.r.demands, amounts, kind).value.1,
                   status := if kind.CLOSE? then CLOSED else a.r.status)
  }

  function ActionsAfter(actions: map<Digest, ActionRecord>, r: Reservation, kind: AccountingKind): map<Digest, ActionRecord> {
    if kind.CLOSE? && r.action in actions && actions[r.action].open == Some(r.id)
    then actions[r.action := actions[r.action].(open := None)] else actions
  }

  lemma AccountEffect(s: State, e: Event) returns (a: Posting)
    requires e.Account? && ApplyAccount(s, e).Ok?
    ensures e.reservation in s.reservations && a.r == s.reservations[e.reservation]
    ensures a.r.generation == e.generation
    ensures IsPosting(s.targets, e.amounts, e.kind, a)
    ensures ApplyAccount(s, e).value
         == s.(targets := a.targets, actions := ActionsAfter(s.actions, a.r, e.kind), reservations := s.reservations[a.r.id := a.t])
  {
    var r := s.reservations[e.reservation];
    var moved := MoveDemands(s.targets, r.demands, e.amounts, e.kind).value;
    a := Posting(r, r.(demands := moved.1, status := if e.kind.CLOSE? then CLOSED else r.status), moved.0);
  }

  lemma PostingShape(targets: map<TargetKey, Balance>, amounts: seq<int>, kind: AccountingKind, a: Posting, id: ReservationId, time: int)
    requires IsPosting(targets, amounts, kind, a) && ReservationOk(targets, id, a.r, time)
    ensures SameDimensions(targets, a.targets)
    ensures ReservationOk(a.targets, id, a.t, time)
    ensures a.t.status.ACTIVE? == ActiveAfter(a.r.status.ACTIVE?, kind)
  {
    var active := a.r.status.ACTIVE?;
    forall key: TargetKey
      ensures MoveDemands(targets, a.r.demands, amounts, kind).value.0.Keys == targets.Keys
      ensures key in targets ==> a.targets[key].dimension == targets[key].dimension
      ensures SameShape(a.r.demands, a.t.demands) && AllWellFormed(a.t.demands, ActiveAfter(active, kind))
    {
      DemandsFollow(targets, a.r.demands, amounts, kind, active, key);
    }
    DemandsFollow(targets, a.r.demands, amounts, kind, active, NodeKey(a.r.authority, ""));
    FitsStay(targets, a.targets, a.r.demands, a.t.demands, time);
  }

  lemma PostingBalances(targets: map<TargetKey, Balance>, rs: map<ReservationId, Reservation>, amounts: seq<int>, kind: AccountingKind,
                        a: Posting, id: ReservationId, key: TargetKey)
    requires IsPosting(targets, amounts, kind, a) && AllWellFormed(a.r.demands, a.r.status.ACTIVE?)
    requires id in rs && rs[id] == a.r && key in targets && key in a.targets && Balanced(targets[key], rs, key)
    ensures Balanced(a.targets[key], rs[id := a.t], key)
  {
    DemandsFollow(targets, a.r.demands, amounts, kind, a.r.status.ACTIVE?, key);
    TotalReplace(rs, id, a.t, Outstanding, key);
    TotalReplace(rs, id, a.t, Consumed, key);
    TotalReplace(rs, id, a.t, Restored, key);
    if kind.CONSUME? {
      ConsumptionTracked(targets, rs, amounts, a, id, key);
    } else {
      OthersKeepEpochs(targets, rs, amounts, kind, a, id, key);
    }
  }

  lemma ConsumptionTracked(targets: map<TargetKey, Balance>, rs: map<ReservationId, Reservation>, amounts: seq<int>,
                           a: Posting, id: ReservationId, key: TargetKey)
    requires IsPosting(targets, amounts, CONSUME, a) && AllWellFormed(a.r.demands, true)
    requires id in rs && rs[id] == a.r && key in targets && key in a.targets
    requires Tracks(targets[key].epochConsumed, ConsumedPerEpoch(rs, key))
    ensures Tracks(a.targets[key].epochConsumed, ConsumedPerEpoch(rs[id := a.t], key))
  {
    var used, next := ConsumedPerEpoch(rs, key), ConsumedPerEpoch(rs[id := a.t], key);
    DemandsTrackEpochs(targets, a.r.demands, amounts, key, used);
    var f := UsedBy(used, a.r.demands, true, a.t.demands, true, key);
    forall n ensures f(n) == next(n) {
      TotalReplace(rs, id, a.t, ConsumedIn(n), key);
      assert f(n) == used(n) + Charge(a.t, ConsumedIn(n), key) - Charge(a.r, ConsumedIn(n), key);
    }
    TracksSame(a.targets[key].epochConsumed, f, next);
  }

  lemma OthersKeepEpochs(targets: map<TargetKey, Balance>, rs: map<ReservationId, Reservation>, amounts: seq<int>, kind: AccountingKind,
                         a: Posting, id: ReservationId, key: TargetKey)
    requires IsPosting(targets, amounts, kind, a) && AllWellFormed(a.r.demands, a.r.status.ACTIVE?) && !kind.CONSUME?
    requires id in rs && rs[id] == a.r && key in targets && key in a.targets
    requires a.targets[key].epochConsumed == targets[key].epochConsumed
    requires Tracks(targets[key].epochConsumed, ConsumedPerEpoch(rs, key))
    ensures Tracks(a.targets[key].epochConsumed, ConsumedPerEpoch(rs[id := a.t], key))
  {
    var used, next := ConsumedPerEpoch(rs, key), ConsumedPerEpoch(rs[id := a.t], key);
    forall n ensures used(n) == next(n) {
      TotalReplace(rs, id, a.t, ConsumedIn(n), key);
      DemandsKeepEpochs(targets, a.r.demands, amounts, kind, a.r.status.ACTIVE?, key, n);
    }
    TracksSame(a.targets[key].epochConsumed, used, next);
  }

  lemma PostingLimits(targets: map<TargetKey, Balance>, rs: map<ReservationId, Reservation>, amounts: seq<int>, kind: AccountingKind,
                      a: Posting, id: ReservationId, key: TargetKey)
    requires IsPosting(targets, amounts, kind, a) && AllWellFormed(a.r.demands, a.r.status.ACTIVE?)
    requires id in rs && rs[id] == a.r && key in targets && key in a.targets && Within(targets[key], rs, key)
    requires a.targets[key].dimension == targets[key].dimension
    ensures Within(a.targets[key], rs[id := a.t], key)
  {
    MovesShrink(targets, a.r.demands, amounts, kind, a.r.status.ACTIVE?, key);
    TotalReplace(rs, id, a.t, Outstanding, key);
    TotalReplace(rs, id, a.t, Consumed, key);
    TotalReplace(rs, id, a.t, Restored, key);
    forall n ensures Total(rs[id := a.t], OutstandingIn(n), key) + Total(rs[id := a.t], ConsumedIn(n), key)
                  <= Total(rs, OutstandingIn(n), key) + Total(rs, ConsumedIn(n), key)
    {
      TotalReplace(rs, id, a.t, OutstandingIn(n), key);
      TotalReplace(rs, id, a.t, ConsumedIn(n), key);
      DemandsKeepEpochs(targets, a.r.demands, amounts, kind, a.r.status.ACTIVE?, key, n);
    }
  }

  // No accounting event increases what a target is charged for, nor lowers what was restored to it.
  lemma {:induction false} MovesShrink(
    targets: map<TargetKey, Balance>, ds: seq<Demand>, amounts: seq<int>, kind: AccountingKind, active: bool, key: TargetKey)
    requires |ds| == |amounts| && Amounts(amounts)
    requires MoveDemands(targets, ds, amounts, kind).Ok?
    requires AllWellFormed(ds, active)
    requires kind.RESTORE? || active
    ensures var after, on := MoveDemands(targets, ds, amounts, kind).value.1, ActiveAfter(active, kind);
            && DemandsCharge(after, on, Outstanding, key) + DemandsCharge(after, on, Consumed, key)
               <= DemandsCharge(ds, active, Outstanding, key) + DemandsCharge(ds, active, Consumed, key)
            && DemandsCharge(after, on, Restored, key) >= DemandsCharge(ds, active, Restored, key)
    decreases |ds|
  {
    if ds != [] {
      var d, from := ds[0], ds[0].contribution.quantity.decimals;
      var moved := ForEachLeg(targets, d.legs, from, amounts[0], kind).value;
      LegsEffect(targets, d.legs, from, amounts[0], kind, key);
      DemandMoves(d, active, amounts[0], kind, key);
      LegSumOrder(d.legs, key, Walked(kind), amounts[0], amounts[0], from);
      assert AllWellFormed(ds[1..], active);
      MovesShrink(moved, ds[1..], amounts[1..], kind, active, key);
      var rest := MoveDemands(moved, ds[1..], amounts[1..], kind).value;
      var out := MoveDemands(targets, ds, amounts, kind).value;
      assert out.1 == [MoveDemand(d, amounts[0], kind)] + rest.1 && out.1[1..] == rest.1;
    }
  }

  lemma AccountActions(actions: map<Digest, ActionRecord>, rs: map<ReservationId, Reservation>, r: Reservation, t: Reservation, kind: AccountingKind)
    requires ActionsOk(actions, rs) && r.id in rs && rs[r.id] == r && r.action == r.id.action
    requires t.status == (if kind.CLOSE? then CLOSED else r.status)
    requires kind.CLOSE? ==> r.status.ACTIVE?
    ensures ActionsOk(ActionsAfter(actions, r, kind), rs[r.id := t])
  {
    var after, rs' := ActionsAfter(actions, r, kind), rs[r.id := t];
    assert rs'.Keys == rs.Keys && after.Keys == actions.Keys;
    forall id | id in rs' ensures rs'[id].status.ACTIVE? <==> after[id.action].open == Some(id) {
      if kind.CLOSE? && id != r.id && id.action == r.action {
        assert actions[r.action].open == Some(r.id);
      }
    }
  }

  lemma AttemptsStay(attempts: map<AttemptId, Attempt>, artifacts: map<Artifact, AttemptId>, slots: map<Slot, AttemptId>,
                     per: map<ReservationId, seq<AttemptId>>, rs: map<ReservationId, Reservation>, after: map<ReservationId, Reservation>)
    requires AttemptsOk(attempts, artifacts, slots, per, rs)
    requires forall id :: id in rs ==> id in after && after[id].action == rs[id].action && after[id].moduleRef == rs[id].moduleRef
    ensures AttemptsOk(attempts, artifacts, slots, per, after)
  {
    forall id | id in attempts ensures AttemptOk(id, attempts[id].admission, after, artifacts, slots) {
      assert AttemptOk(id, attempts[id].admission, rs, artifacts, slots);
    }
  }

  // What is consumed counts in the epoch it was reserved in.
  lemma {:induction false} LegsPast(targets: map<TargetKey, Balance>, legs: seq<Leg>, from: nat, amount: int, kind: AccountingKind,
                                    key: TargetKey, time: int)
    requires ForEachLeg(targets, legs, from, amount, kind).Ok? && key in targets && EpochPast(targets[key], time)
    requires forall i :: 0 <= i < |legs| && legs[i].key == key ==> LegFits(targets[key].dimension, legs[i], time)
    ensures key in ForEachLeg(targets, legs, from, amount, kind).value
    ensures EpochPast(ForEachLeg(targets, legs, from, amount, kind).value[key], time)
    decreases |legs|
  {
    if legs != [] {
      var leg := legs[0];
      assert forall i :: 0 <= i < |legs[1..]| ==> legs[1..][i] == legs[i + 1];
      if kind.RESTORE? && !leg.capacity {
        LegsPast(targets, legs[1..], from, amount, kind, key, time);
      } else {
        var next := UpdateBalance(targets[leg.key], Scaled(amount, from, leg.decimals), leg.epoch, kind);
        assert RescaleExact(amount, from, leg.decimals) == Some(Scaled(amount, from, leg.decimals));
        LegsPast(targets[leg.key := next.value], legs[1..], from, amount, kind, key, time);
      }
    }
  }

  lemma {:induction false} DemandsPast(targets: map<TargetKey, Balance>, ds: seq<Demand>, amounts: seq<int>, kind: AccountingKind,
                                       key: TargetKey, time: int)
    requires |ds| == |amounts| && MoveDemands(targets, ds, amounts, kind).Ok? && key in targets && EpochPast(targets[key], time)
    requires forall i, j :: 0 <= i < |ds| && 0 <= j < |ds[i].legs| && ds[i].legs[j].key == key ==>
               LegFits(targets[key].dimension, ds[i].legs[j], time)
    ensures key in MoveDemands(targets, ds, amounts, kind).value.0
    ensures EpochPast(MoveDemands(targets, ds, amounts, kind).value.0[key], time)
    decreases |ds|
  {
    if ds != [] {
      var from := ds[0].contribution.quantity.decimals;
      LegsPast(targets, ds[0].legs, from, amounts[0], kind, key, time);
      LegsEffect(targets, ds[0].legs, from, amounts[0], kind, key);
      assert forall i :: 0 <= i < |ds[1..]| ==> ds[1..][i] == ds[i + 1];
      DemandsPast(ForEachLeg(targets, ds[0].legs, from, amounts[0], kind).value, ds[1..], amounts[1..], kind, key, time);
    }
  }

  lemma PostingPast(targets: map<TargetKey, Balance>, amounts: seq<int>, kind: AccountingKind, a: Posting, id: ReservationId, lastAt: Option<int>)
    requires IsPosting(targets, amounts, kind, a) && lastAt.Some? && ReservationOk(targets, id, a.r, lastAt.value)
    requires EpochsOk(targets, lastAt) && a.targets.Keys == targets.Keys
    ensures EpochsOk(a.targets, lastAt)
  {
    forall key | key in a.targets ensures EpochPast(a.targets[key], lastAt.value) {
      assert EpochPast(targets[key], lastAt.value);
      DemandsPast(targets, a.r.demands, amounts, kind, key, lastAt.value);
    }
  }

  lemma PostingKeeps(targets: map<TargetKey, Balance>, rs: map<ReservationId, Reservation>, amounts: seq<int>, kind: AccountingKind,
                     a: Posting, id: ReservationId, lastAt: Option<int>)
    requires IsPosting(targets, amounts, kind, a) && id in rs && rs[id] == a.r
    requires ReservationsOk(targets, rs, lastAt) && SumsOk(targets, rs) && LimitsOk(targets, rs)
    ensures a.r.id == id && SameDimensions(targets, a.targets)
    ensures ReservationsOk(a.targets, rs[id := a.t], lastAt) && SumsOk(a.targets, rs[id := a.t]) && LimitsOk(a.targets, rs[id := a.t])
  {
    assert ReservationOk(targets, id, a.r, lastAt.value);
    PostingShape(targets, amounts, kind, a, id, lastAt.value);
    var after := rs[id := a.t];
    forall x | x in after ensures ReservationOk(a.targets, x, after[x], lastAt.value) {
      if x != id {
        assert ReservationOk(targets, x, rs[x], lastAt.value);
        FitsStay(targets, a.targets, rs[x].demands, rs[x].demands, lastAt.value);
      }
    }
    forall key | key in a.targets
      ensures Balanced(a.targets[key], after, key) && (key.NodeKey? ==> Within(a.targets[key], after, key))
    {
      PostingBalances(targets, rs, amounts, kind, a, id, key);
      if key.NodeKey? {
        PostingLimits(targets, rs, amounts, kind, a, id, key);
      }
    }
  }

  lemma AccountKeeps(s: State, e: Event)
    requires e.Account? && Inv(s) && ApplyAccount(s, e).Ok?
    ensures Inv(ApplyAccount(s, e).value)
    ensures ApplyAccount(s, e).value.lastAt == s.lastAt
  {
    hide ApplyAccount, NodesOk, TargetsOk, PolicyOk, SumsOk, EpochsOk, LimitsOk, ActionsOk, AttemptsOk, IsPosting;
    var a := AccountEffect(s, e);
    PostingKeeps(s.targets, s.reservations, e.amounts, e.kind, a, e.reservation, s.lastAt);
    assert ReservationOk(s.targets, e.reservation, a.r, s.lastAt.value);
    PostingPast(s.targets, e.amounts, e.kind, a, e.reservation, s.lastAt);
    var rs := s.reservations[a.r.id := a.t];
    assert rs.Keys == s.reservations.Keys;
    DimensionsStay(s.principal, s.nodes, s.policy, s.targets, a.targets);
    AccountActions(s.actions, s.reservations, a.r, a.t, e.kind);
    AttemptsStay(s.attempts, s.artifacts, s.slots, s.reservationAttempts, s.reservations, rs);
  }
}
