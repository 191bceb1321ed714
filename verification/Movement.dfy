// How one accounting event moves a whole reservation: the balances move exactly as the charges do.
module Movement {
  import opened Common
  import opened Core
  import opened Decimals
  import opened Ledger
  import opened Charges

  function ActiveAfter(active: bool, kind: AccountingKind): bool {
    active && !kind.CLOSE?
  }

  ghost predicate DemandMoved(d: Demand, active: bool, amount: int, kind: AccountingKind, key: TargetKey) {
    var after, on := MoveDemand(d, amount, kind), ActiveAfter(active, kind);
    var x := LegSum(d.legs, key, Walked(kind), amount, d.contribution.quantity.decimals);
    && WellFormed(after, on)
    && DemandCharge(after, on, Outstanding, key) == DemandCharge(d, active, Outstanding, key) - (if kind.RESTORE? then 0 else x)
    && DemandCharge(after, on, Consumed, key) == DemandCharge(d, active, Consumed, key) + (if kind.CONSUME? then x else 0)
    && DemandCharge(after, on, Restored, key) == DemandCharge(d, active, Restored, key) + (if kind.RESTORE? then x else 0)
  }

  ghost predicate DemandMovedIn(d: Demand, active: bool, amount: int, kind: AccountingKind, key: TargetKey, e: int) {
    var after, on := MoveDemand(d, amount, kind), ActiveAfter(active, kind);
    var x := LegSum(d.legs, key, InEpoch(e), amount, d.contribution.quantity.decimals);
    && DemandCharge(after, on, ConsumedIn(e), key) == DemandCharge(d, active, ConsumedIn(e), key) + (if kind.CONSUME? then x else 0)
    && DemandCharge(after, on, OutstandingIn(e), key) + DemandCharge(after, on, ConsumedIn(e), key)
       <= DemandCharge(d, active, OutstandingIn(e), key) + DemandCharge(d, active, ConsumedIn(e), key)
  }

  // Consuming a part of what remains: three exact sums, for any filter of the legs.
  lemma ConsumeSums(legs: seq<Leg>, key: TargetKey, f: Filter, reserved: int, consumed: int, amount: int, from: nat)
    requires ExactOn(legs, reserved, from) && ExactOn(legs, consumed, from) && ExactOn(legs, amount, from)
    ensures LegSum(legs, key, f, reserved - (consumed + amount), from)
         == LegSum(legs, key, f, reserved - consumed, from) - LegSum(legs, key, f, amount, from)
    ensures LegSum(legs, key, f, consumed + amount, from)
         == LegSum(legs, key, f, consumed, from) + LegSum(legs, key, f, amount, from)
    ensures ExactOn(legs, consumed + amount, from)
  {
    LegSumAdds(legs, key, f, reserved, consumed, from);
    LegSumAdds(legs, key, f, reserved - consumed, amount, from);
    LegSumAdds(legs, key, f, consumed, amount, from);
    assert reserved - (consumed + amount) == reserved - consumed - amount;
  }

  lemma DemandConsumes(d: Demand, amount: int, key: TargetKey)
    requires WellFormed(d, true) && 0 <= amount <= d.reserved - d.consumed
    requires ExactOn(d.legs, amount, d.contribution.quantity.decimals)
    ensures DemandMoved(d, true, amount, CONSUME, key)
  {
    ConsumeSums(d.legs, key, AnyLeg, d.reserved, d.consumed, amount, d.contribution.quantity.decimals);
  }

  lemma DemandRestores(d: Demand, active: bool, amount: int, key: TargetKey)
    requires WellFormed(d, active) && 0 <= amount <= d.consumed - d.restored
    requires ExactOnCapacity(d.legs, amount, d.contribution.quantity.decimals)
    ensures DemandMoved(d, active, amount, RESTORE, key)
  {
    CapacitySumAdds(d.legs, key, d.restored, amount, d.contribution.quantity.decimals);
  }

  // One demand: what leaves one measure enters another, and the demand stays well formed.
  lemma DemandMoves(d: Demand, active: bool, amount: int, kind: AccountingKind, key: TargetKey)
    requires WellFormed(d, active) && amount >= 0 && AmountRefusal(d, amount, kind).None?
    requires kind.RESTORE? || active
    requires if kind.RESTORE? then ExactOnCapacity(d.legs, amount, d.contribution.quantity.decimals)
             else ExactOn(d.legs, amount, d.contribution.quantity.decimals)
    ensures DemandMoved(d, active, amount, kind, key)
  {
    match kind
    case CONSUME => DemandConsumes(d, amount, key);
    case CLOSE =>
    case RESTORE => DemandRestores(d, active, amount, key);
  }

  // The same per epoch: consumption moves within its epoch, a release only shrinks it.
  lemma DemandMovesInEpoch(d: Demand, active: bool, amount: int, kind: AccountingKind, key: TargetKey, e: int)
    requires WellFormed(d, active) && amount >= 0 && AmountRefusal(d, amount, kind).None?
    requires kind.RESTORE? || (active && ExactOn(d.legs, amount, d.contribution.quantity.decimals))
    ensures DemandMovedIn(d, active, amount, kind, key, e)
  {
    var from := d.contribution.quantity.decimals;
    match kind
    case CONSUME => ConsumeSums(d.legs, key, InEpoch(e), d.reserved, d.consumed, amount, from);
    case CLOSE => LegSumOrder(d.legs, key, InEpoch(e), 0, d.reserved - d.consumed, from);
    case RESTORE =>
  }

  // The balance at `key` follows the charges at `key`, measure by measure.
  ghost predicate Follows(b: Balance, c: Balance, before: seq<Demand>, active: bool, after: seq<Demand>, on: bool, key: TargetKey) {
    && SameTerms(b, c)
    && c.reserved - b.reserved == DemandsCharge(after, on, Outstanding, key) - DemandsCharge(before, active, Outstanding, key)
    && c.consumed - b.consumed == DemandsCharge(after, on, Consumed, key) - DemandsCharge(before, active, Consumed, key)
    && c.restored - b.restored == DemandsCharge(after, on, Restored, key) - DemandsCharge(before, active, Restored, key)
  }

  predicate SameShape(before: seq<Demand>, after: seq<Demand>) {
    && |before| == |after|
    && forall i :: 0 <= i < |before| ==>
         && before[i].legs == after[i].legs
         && before[i].contribution == after[i].contribution
         && before[i].reserved == after[i].reserved
  }

  predicate Amounts(amounts: seq<int>) {
    forall i :: 0 <= i < |amounts| ==> amounts[i] >= 0
  }

  lemma {:induction false} DemandsFollow(
    targets: map<TargetKey, Balance>, ds: seq<Demand>, amounts: seq<int>, kind: AccountingKind, active: bool, key: TargetKey)
    requires |ds| == |amounts| && Amounts(amounts)
    requires MoveDemands(targets, ds, amounts, kind).Ok?
    requires AllWellFormed(ds, active)
    requires kind.RESTORE? || active
    ensures var out := MoveDemands(targets, ds, amounts, kind).value;
            && out.0.Keys == targets.Keys
            && SameShape(ds, out.1)
            && AllWellFormed(out.1, ActiveAfter(active, kind))
            && (key in targets ==> Follows(targets[key], out.0[key], ds, active, out.1, ActiveAfter(active, kind), key))
            && (key in targets && !kind.CONSUME? ==> out.0[key].epochConsumed == targets[key].epochConsumed)
    decreases |ds|
  {
    if ds != [] {
      var d := ds[0];
      var moved := ForEachLeg(targets, d.legs, d.contribution.quantity.decimals, amounts[0], kind).value;
      assert AllWellFormed(ds[1..], active);
      LegsEffect(targets, d.legs, d.contribution.quantity.decimals, amounts[0], kind, key);
      DemandMoves(d, active, amounts[0], kind, key);
      DemandsFollow(moved, ds[1..], amounts[1..], kind, active, key);
      var rest := MoveDemands(moved, ds[1..], amounts[1..], kind).value;
      var out := MoveDemands(targets, ds, amounts, kind).value;
      assert out.1 == [MoveDemand(d, amounts[0], kind)] + rest.1;
      assert out.1[1..] == rest.1;
    }
  }

  ghost function UsedBy(used: int -> int, before: seq<Demand>, active: bool, after: seq<Demand>, on: bool, key: TargetKey): int -> int {
    e => used(e) + DemandsCharge(after, on, ConsumedIn(e), key) - DemandsCharge(before, active, ConsumedIn(e), key)
  }

  lemma {:induction false} DemandsTrackEpochs(
    targets: map<TargetKey, Balance>, ds: seq<Demand>, amounts: seq<int>, key: TargetKey, used: int -> int)
    requires |ds| == |amounts| && Amounts(amounts)
    requires MoveDemands(targets, ds, amounts, CONSUME).Ok?
    requires AllWellFormed(ds, true)
    requires key in targets && Tracks(targets[key].epochConsumed, used)
    ensures var out := MoveDemands(targets, ds, amounts, CONSUME).value;
            key in out.0 && Tracks(out.0[key].epochConsumed, UsedBy(used, ds, true, out.1, true, key))
    decreases |ds|
  {
    var out := MoveDemands(targets, ds, amounts, CONSUME).value;
    if ds == [] {
      TracksSame(targets[key].epochConsumed, used, UsedBy(used, ds, true, out.1, true, key));
    } else {
      var d, from := ds[0], ds[0].contribution.quantity.decimals;
      var moved := ForEachLeg(targets, d.legs, from, amounts[0], CONSUME).value;
      LegsEffect(targets, d.legs, from, amounts[0], CONSUME, key);
      LegsTrackEpochs(targets, d.legs, from, amounts[0], key, used);
      var mid := UsedAfter(used, d.legs, key, amounts[0], from);
      assert AllWellFormed(ds[1..], true);
      DemandsTrackEpochs(moved, ds[1..], amounts[1..], key, mid);
      var rest := MoveDemands(moved, ds[1..], amounts[1..], CONSUME).value;
      var first := MoveDemand(d, amounts[0], CONSUME);
      assert out.1 == [first] + rest.1 && out.1[1..] == rest.1;
      var f, g := UsedBy(mid, ds[1..], true, rest.1, true, key), UsedBy(used, ds, true, out.1, true, key);
      forall e ensures f(e) == g(e) {
        DemandMovesInEpoch(d, true, amounts[0], CONSUME, key, e);
        assert mid(e) == used(e) + LegSum(d.legs, key, InEpoch(e), amounts[0], from);
        assert f(e) == mid(e) + DemandsCharge(rest.1, true, ConsumedIn(e), key) - DemandsCharge(ds[1..], true, ConsumedIn(e), key);
      }
      TracksSame(out.0[key].epochConsumed, f, g);
    }
  }

  // Held plus used in one epoch never grows once reserved.
  lemma {:induction false} DemandsKeepEpochs(
    targets: map<TargetKey, Balance>, ds: seq<Demand>, amounts: seq<int>, kind: AccountingKind, active: bool, key: TargetKey, e: int)
    requires |ds| == |amounts| && Amounts(amounts)
    requires MoveDemands(targets, ds, amounts, kind).Ok?
    requires AllWellFormed(ds, active)
    requires kind.RESTORE? || active
    ensures var after, on := MoveDemands(targets, ds, amounts, kind).value.1, ActiveAfter(active, kind);
            && DemandsCharge(after, on, OutstandingIn(e), key) + DemandsCharge(after, on, ConsumedIn(e), key)
               <= DemandsCharge(ds, active, OutstandingIn(e), key) + DemandsCharge(ds, active, ConsumedIn(e), key)
            && (!kind.CONSUME? ==> DemandsCharge(after, on, ConsumedIn(e), key) == DemandsCharge(ds, active, ConsumedIn(e), key))
    decreases |ds|
  {
    if ds != [] {
      var d := ds[0];
      var moved := ForEachLeg(targets, d.legs, d.contribution.quantity.decimals, amounts[0], kind).value;
      LegsEffect(targets, d.legs, d.contribution.quantity.decimals, amounts[0], kind, key);
      assert AllWellFormed(ds[1..], active);
      DemandMovesInEpoch(d, active, amounts[0], kind, key, e);
      DemandsKeepEpochs(moved, ds[1..], amounts[1..], kind, active, key, e);
      var rest := MoveDemands(moved, ds[1..], amounts[1..], kind).value;
      var out := MoveDemands(targets, ds, amounts, kind).value;
      assert out.1 == [MoveDemand(d, amounts[0], kind)] + rest.1 && out.1[1..] == rest.1;
    }
  }

  // ---- Signs and order of the charges ----------------------------------------------------------

  lemma {:induction false} DemandsOrder(ds: seq<Demand>, active: bool, key: TargetKey, e: int)
    requires AllWellFormed(ds, active)
    ensures 0 <= DemandsCharge(ds, active, OutstandingIn(e), key) <= DemandsCharge(ds, active, Outstanding, key)
    ensures 0 <= DemandsCharge(ds, active, ConsumedIn(e), key) <= DemandsCharge(ds, active, Consumed, key)
    ensures 0 <= DemandsCharge(ds, active, Restored, key) <= DemandsCharge(ds, active, Consumed, key)
    decreases |ds|
  {
    if ds != [] {
      var d, from := ds[0], ds[0].contribution.quantity.decimals;
      LegSumOrder(d.legs, key, InEpoch(e), d.reserved - d.consumed, d.reserved - d.consumed, from);
      LegSumOrder(d.legs, key, InEpoch(e), d.consumed, d.consumed, from);
      LegSumOrder(d.legs, key, CapacityLegs, d.restored, d.consumed, from);
      assert AllWellFormed(ds[1..], active);
      DemandsOrder(ds[1..], active, key, e);
    }
  }

  lemma {:induction false} TotalOrder(rs: map<ReservationId, Reservation>, key: TargetKey, e: int)
    requires forall id :: id in rs ==> AllWellFormed(rs[id].demands, rs[id].status.ACTIVE?)
    ensures 0 <= Total(rs, OutstandingIn(e), key) <= Total(rs, Outstanding, key)
    ensures 0 <= Total(rs, ConsumedIn(e), key) <= Total(rs, Consumed, key)
    ensures 0 <= Total(rs, Restored, key) <= Total(rs, Consumed, key)
    decreases |rs|
  {
    if rs != map[] {
      var id := Pick(rs);
      DemandsOrder(rs[id].demands, rs[id].status.ACTIVE?, key, e);
      TotalOrder(rs - {id}, key, e);
    }
  }

  predicate Uncharged(ds: seq<Demand>, key: TargetKey) {
    forall i, j :: 0 <= i < |ds| && 0 <= j < |ds[i].legs| ==> ds[i].legs[j].key != key
  }

  lemma {:induction false} LegSumElsewhere(legs: seq<Leg>, key: TargetKey, f: Filter, amount: int, from: nat)
    requires forall j :: 0 <= j < |legs| ==> !Counts(legs[j], key, f)
    ensures LegSum(legs, key, f, amount, from) == 0
    decreases |legs|
  {
    if legs != [] {
      assert forall j :: 0 <= j < |legs[1..]| ==> legs[1..][j] == legs[j + 1];
      LegSumElsewhere(legs[1..], key, f, amount, from);
    }
  }

  lemma {:induction false} DemandsElsewhere(ds: seq<Demand>, active: bool, m: Measure, key: TargetKey)
    requires Uncharged(ds, key)
    ensures DemandsCharge(ds, active, m, key) == 0
    decreases |ds|
  {
    if ds != [] {
      var d, from := ds[0], ds[0].contribution.quantity.decimals;
      LegSumElsewhere(d.legs, key, AnyLeg, d.reserved - d.consumed, from);
      LegSumElsewhere(d.legs, key, AnyLeg, d.consumed, from);
      LegSumElsewhere(d.legs, key, CapacityLegs, d.restored, from);
      match m {
        case OutstandingIn(e) => LegSumElsewhere(d.legs, key, InEpoch(e), d.reserved - d.consumed, from);
        case ConsumedIn(e) => LegSumElsewhere(d.legs, key, InEpoch(e), d.consumed, from);
        case _ =>
      }
      assert forall i :: 0 <= i < |ds[1..]| ==> ds[1..][i] == ds[i + 1];
      DemandsElsewhere(ds[1..], active, m, key);
    }
  }

  // A target no leg names is charged nothing.
  lemma {:induction false} TotalElsewhere(rs: map<ReservationId, Reservation>, m: Measure, key: TargetKey)
    requires forall id :: id in rs ==> Uncharged(rs[id].demands, key)
    ensures Total(rs, m, key) == 0
    decreases |rs|
  {
    if rs != map[] {
      var id := Pick(rs);
      DemandsElsewhere(rs[id].demands, rs[id].status.ACTIVE?, m, key);
      TotalElsewhere(rs - {id}, m, key);
    }
  }
}
