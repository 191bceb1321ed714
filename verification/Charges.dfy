// What each reservation charges to each target, and how one accounting event moves it.
module Charges {
  import opened Common
  import opened Core
  import opened Decimals
  import opened Ledger

  datatype Filter = AnyLeg | CapacityLegs | InEpoch(e: int)

  predicate Counts(l: Leg, key: TargetKey, f: Filter) {
    && l.key == key
    && match f
       case AnyLeg => true
       case CapacityLegs => l.capacity
       case InEpoch(e) => l.epoch == Some(e)
  }

  // The sum, over the legs at `key` the filter keeps, of `amount` at each leg's own decimals.
  function LegSum(legs: seq<Leg>, key: TargetKey, f: Filter, amount: int, from: nat): int {
    if legs == [] then 0
    else (if Counts(legs[0], key, f) then Scaled(amount, from, legs[0].decimals) else 0) + LegSum(legs[1..], key, f, amount, from)
  }

  // The five quantities tracked per target: what is held, what was used, what came back, and the first two per epoch.
  datatype Measure = Outstanding | Consumed | Restored | OutstandingIn(e: int) | ConsumedIn(e: int)

  function DemandCharge(d: Demand, active: bool, m: Measure, key: TargetKey): int {
    var from := d.contribution.quantity.decimals;
    match m
    case Outstanding => if active then LegSum(d.legs, key, AnyLeg, d.reserved - d.consumed, from) else 0
    case Consumed => LegSum(d.legs, key, AnyLeg, d.consumed, from)
    case Restored => LegSum(d.legs, key, CapacityLegs, d.restored, from)
    case OutstandingIn(e) => if active then LegSum(d.legs, key, InEpoch(e), d.reserved - d.consumed, from) else 0
    case ConsumedIn(e) => LegSum(d.legs, key, InEpoch(e), d.consumed, from)
  }

  function DemandsCharge(ds: seq<Demand>, active: bool, m: Measure, key: TargetKey): int {
    if ds == [] then 0 else DemandCharge(ds[0], active, m, key) + DemandsCharge(ds[1..], active, m, key)
  }

  function Charge(r: Reservation, m: Measure, key: TargetKey): int {
    DemandsCharge(r.demands, r.status.ACTIVE?, m, key)
  }

  ghost function Pick(rs: map<ReservationId, Reservation>): ReservationId
    requires rs != map[]
    ensures Pick(rs) in rs
  {
    assert rs.Keys != {};
    var id :| id in rs.Keys;
    id
  }

  // The charge of every reservation ever made, at one target.
  ghost function Total(rs: map<ReservationId, Reservation>, m: Measure, key: TargetKey): int
    decreases |rs|
  {
    if rs == map[] then 0
    else
      var id := Pick(rs);
      Charge(rs[id], m, key) + Total(rs - {id}, m, key)
  }

  lemma {:induction false} TotalRemove(rs: map<ReservationId, Reservation>, id: ReservationId, m: Measure, key: TargetKey)
    requires id in rs
    ensures Total(rs, m, key) == Charge(rs[id], m, key) + Total(rs - {id}, m, key)
    decreases |rs|
  {
    var x := Pick(rs);
    if x != id {
      TotalRemove(rs - {x}, id, m, key);
      TotalRemove(rs - {id}, x, m, key);
      assert rs - {x} - {id} == rs - {id} - {x};
    }
  }

  lemma TotalAdd(rs: map<ReservationId, Reservation>, id: ReservationId, r: Reservation, m: Measure, key: TargetKey)
    requires id !in rs
    ensures Total(rs[id := r], m, key) == Total(rs, m, key) + Charge(r, m, key)
  {
    TotalRemove(rs[id := r], id, m, key);
    assert rs[id := r] - {id} == rs;
  }

  lemma TotalReplace(rs: map<ReservationId, Reservation>, id: ReservationId, r: Reservation, m: Measure, key: TargetKey)
    requires id in rs
    ensures Total(rs[id := r], m, key) == Total(rs, m, key) - Charge(rs[id], m, key) + Charge(r, m, key)
  {
    TotalRemove(rs, id, m, key);
    TotalRemove(rs[id := r], id, m, key);
    assert rs[id := r] - {id} == rs - {id};
  }

  // ---- Well-formed demands ---------------------------------------------------------------------

  // A demand's amounts are ordered and every one of them is exact on every leg.
  predicate WellFormed(d: Demand, active: bool) {
    && d.reserved > 0
    && 0 <= d.consumed <= d.reserved
    && 0 <= d.restored <= d.consumed
    && d.released == (if active then 0 else d.reserved - d.consumed)
    && ExactOn(d.legs, d.reserved, d.contribution.quantity.decimals)
    && ExactOn(d.legs, d.consumed, d.contribution.quantity.decimals)
    && ExactOnCapacity(d.legs, d.restored, d.contribution.quantity.decimals)
  }

  predicate ExactOn(legs: seq<Leg>, amount: int, from: nat) {
    forall i :: 0 <= i < |legs| ==> Exact(amount, from, legs[i].decimals)
  }

  predicate ExactOnCapacity(legs: seq<Leg>, amount: int, from: nat) {
    forall i :: 0 <= i < |legs| && legs[i].capacity ==> Exact(amount, from, legs[i].decimals)
  }

  predicate AllWellFormed(ds: seq<Demand>, active: bool) {
    forall i :: 0 <= i < |ds| ==> WellFormed(ds[i], active)
  }

  lemma {:induction false} LegSumAdds(legs: seq<Leg>, key: TargetKey, f: Filter, a: int, b: int, from: nat)
    requires ExactOn(legs, a, from) && ExactOn(legs, b, from)
    ensures LegSum(legs, key, f, a + b, from) == LegSum(legs, key, f, a, from) + LegSum(legs, key, f, b, from)
    ensures LegSum(legs, key, f, a - b, from) == LegSum(legs, key, f, a, from) - LegSum(legs, key, f, b, from)
    ensures ExactOn(legs, a + b, from) && ExactOn(legs, a - b, from)
    decreases |legs|
  {
    if legs != [] {
      ScaledSum(a, b, from, legs[0].decimals);
      assert forall i :: 0 <= i < |legs[1..]| ==> legs[1..][i] == legs[i + 1];
      LegSumAdds(legs[1..], key, f, a, b, from);
      forall i | 0 <= i < |legs|
        ensures Exact(a + b, from, legs[i].decimals) && Exact(a - b, from, legs[i].decimals)
      {
        ScaledSum(a, b, from, legs[i].decimals);
      }
    }
  }

  lemma {:induction false} CapacitySumAdds(legs: seq<Leg>, key: TargetKey, a: int, b: int, from: nat)
    requires ExactOnCapacity(legs, a, from) && ExactOnCapacity(legs, b, from)
    ensures LegSum(legs, key, CapacityLegs, a + b, from)
         == LegSum(legs, key, CapacityLegs, a, from) + LegSum(legs, key, CapacityLegs, b, from)
    ensures ExactOnCapacity(legs, a + b, from)
    decreases |legs|
  {
    if legs != [] {
      assert forall i :: 0 <= i < |legs[1..]| ==> legs[1..][i] == legs[i + 1];
      if legs[0].capacity {
        ScaledSum(a, b, from, legs[0].decimals);
      }
      CapacitySumAdds(legs[1..], key, a, b, from);
      forall i | 0 <= i < |legs| && legs[i].capacity
        ensures Exact(a + b, from, legs[i].decimals)
      {
        ScaledSum(a, b, from, legs[i].decimals);
      }
    }
  }

  lemma {:induction false} LegSumZero(legs: seq<Leg>, key: TargetKey, f: Filter, from: nat)
    ensures LegSum(legs, key, f, 0, from) == 0
    decreases |legs|
  {
    if legs != [] {
      assert Scaled(0, from, legs[0].decimals) == 0 by {
        ScaledSum(0, 0, from, legs[0].decimals);
      }
      LegSumZero(legs[1..], key, f, from);
    }
  }

  // A narrower filter sums to less, and a larger amount to more.
  lemma {:induction false} LegSumOrder(legs: seq<Leg>, key: TargetKey, f: Filter, a: int, b: int, from: nat)
    requires 0 <= a <= b
    ensures 0 <= LegSum(legs, key, f, a, from) <= LegSum(legs, key, f, b, from) <= LegSum(legs, key, AnyLeg, b, from)
    decreases |legs|
  {
    if legs != [] {
      ScaledMonotone(a, b, from, legs[0].decimals);
      LegSumOrder(legs[1..], key, f, a, b, from);
    }
  }

  lemma ScaledMonotone(a: int, b: int, from: nat, to: nat)
    requires 0 <= a <= b
    ensures 0 <= Scaled(a, from, to) <= Scaled(b, from, to)
  {
    var k := if to >= from then Pow10(to - from) else Pow10(from - to);
    MulMonotone(a, b, k);
    MulMonotone(0, a, k);
    DivMonotone(a, b, k);
  }

  lemma DivMonotone(a: int, b: int, k: int)
    requires 0 <= a <= b && k > 0
    ensures 0 <= a / k <= b / k
  {
    var x, y := a / k, b / k;
    assert x * k <= a && b < (y + 1) * k && 0 <= x;
    if x > y {
      MulMonotone(y + 1, x, k);
      assert false;
    }
  }

  // ---- One leg walk ----------------------------------------------------------------------------

  predicate SameTerms(a: Balance, b: Balance) {
    a.ref == b.ref && a.source == b.source && a.dimension == b.dimension && a.current == b.current
  }

  function Walked(kind: AccountingKind): Filter {
    if kind.RESTORE? then CapacityLegs else AnyLeg
  }

  // What moving every leg by `amount` does to the balance at `key`.
  ghost predicate Moved(b: Balance, c: Balance, kind: AccountingKind, x: int) {
    && SameTerms(b, c)
    && c.reserved == b.reserved - (if kind.RESTORE? then 0 else x)
    && c.consumed == b.consumed + (if kind.CONSUME? then x else 0)
    && c.restored == b.restored + (if kind.RESTORE? then x else 0)
    && (!kind.CONSUME? ==> c.epochConsumed == b.epochConsumed)
  }

  lemma {:induction false} LegsEffect(
    targets: map<TargetKey, Balance>, legs: seq<Leg>, from: nat, amount: int, kind: AccountingKind, key: TargetKey)
    requires ForEachLeg(targets, legs, from, amount, kind).Ok?
    ensures var out := ForEachLeg(targets, legs, from, amount, kind).value;
            && out.Keys == targets.Keys
            && (key in targets ==> Moved(targets[key], out[key], kind, LegSum(legs, key, Walked(kind), amount, from)))
    ensures if kind.RESTORE? then ExactOnCapacity(legs, amount, from) else ExactOn(legs, amount, from)
    decreases |legs|
  {
    if legs != [] {
      var leg := legs[0];
      assert forall i :: 0 < i < |legs| ==> legs[i] == legs[1..][i - 1];
      if kind.RESTORE? && !leg.capacity {
        LegsEffect(targets, legs[1..], from, amount, kind, key);
      } else {
        var x := RescaleExact(amount, from, leg.decimals);
        var next := UpdateBalance(targets[leg.key], x.value, leg.epoch, kind);
        LegsEffect(targets[leg.key := next.value], legs[1..], from, amount, kind, key);
      }
    }
  }

  // `ec` is exact for the latest epoch anything was consumed in, and nothing was consumed in a later one.
  ghost predicate Tracks(ec: Option<EpochConsumed>, used: int -> int) {
    match ec
    case None => forall e :: used(e) == 0
    case Some(c) => used(c.epoch) == c.atoms && forall e :: e > c.epoch ==> used(e) == 0
  }

  ghost function UsedAfter(used: int -> int, legs: seq<Leg>, key: TargetKey, amount: int, from: nat): int -> int {
    e => used(e) + LegSum(legs, key, InEpoch(e), amount, from)
  }

  ghost predicate SameUse(f: int -> int, g: int -> int) {
    forall e :: f(e) == g(e)
  }

  ghost function Plus(used: int -> int, leg: Leg, key: TargetKey, x: int): int -> int {
    e => used(e) + if Counts(leg, key, InEpoch(e)) then x else 0
  }

  // One update keeps the figure of the latest epoch exact, whichever way the leg's epoch compares with it.
  lemma UpdateTracks(b: Balance, leg: Leg, x: int, used: int -> int)
    requires Tracks(b.epochConsumed, used)
    requires UpdateBalance(b, x, leg.epoch, CONSUME).Some?
    ensures Tracks(UpdateBalance(b, x, leg.epoch, CONSUME).value.epochConsumed, Plus(used, leg, leg.key, x))
  {
    var next := UpdateBalance(b, x, leg.epoch, CONSUME).value.epochConsumed;
    var after := Plus(used, leg, leg.key, x);
    if next.Some? {
      assert after(next.value.epoch) == next.value.atoms;
      forall e | e > next.value.epoch
        ensures after(e) == 0
      {
        assert used(e) == 0;
      }
    } else {
      forall e ensures after(e) == 0 {
        assert used(e) == 0;
      }
    }
  }

  lemma TracksSame(ec: Option<EpochConsumed>, f: int -> int, g: int -> int)
    requires Tracks(ec, f) && SameUse(f, g)
    ensures Tracks(ec, g)
  {
  }

  lemma UsedCons(used: int -> int, legs: seq<Leg>, key: TargetKey, amount: int, from: nat)
    requires legs != []
    ensures SameUse(UsedAfter(Plus(used, legs[0], key, Scaled(amount, from, legs[0].decimals)), legs[1..], key, amount, from),
                    UsedAfter(used, legs, key, amount, from))
  {
    var mid := Plus(used, legs[0], key, Scaled(amount, from, legs[0].decimals));
    var f, g := UsedAfter(mid, legs[1..], key, amount, from), UsedAfter(used, legs, key, amount, from);
    forall e ensures f(e) == g(e) {
      assert g(e) == used(e) + LegSum(legs, key, InEpoch(e), amount, from);
      assert f(e) == mid(e) + LegSum(legs[1..], key, InEpoch(e), amount, from);
    }
  }

  lemma {:induction false} LegsTrackEpochs(
    targets: map<TargetKey, Balance>, legs: seq<Leg>, from: nat, amount: int, key: TargetKey, used: int -> int)
    requires ForEachLeg(targets, legs, from, amount, CONSUME).Ok?
    requires key in targets && Tracks(targets[key].epochConsumed, used)
    ensures var out := ForEachLeg(targets, legs, from, amount, CONSUME).value;
            key in out && Tracks(out[key].epochConsumed, UsedAfter(used, legs, key, amount, from))
    decreases |legs|
  {
    if legs == [] {
      TracksSame(targets[key].epochConsumed, used, UsedAfter(used, legs, key, amount, from));
    } else {
      var leg := legs[0];
      var x := Scaled(amount, from, leg.decimals);
      assert RescaleExact(amount, from, leg.decimals) == Some(x);
      var after := targets[leg.key := UpdateBalance(targets[leg.key], x, leg.epoch, CONSUME).value];
      var mid := Plus(used, leg, key, x);
      assert Tracks(after[key].epochConsumed, mid) by {
        if leg.key == key {
          UpdateTracks(targets[key], leg, x, used);
        } else {
          TracksSame(targets[key].epochConsumed, used, mid);
        }
      }
      LegsTrackEpochs(after, legs[1..], from, amount, key, mid);
      UsedCons(used, legs, key, amount, from);
      TracksSame(ForEachLeg(targets, legs, from, amount, CONSUME).value[key].epochConsumed,
                 UsedAfter(mid, legs[1..], key, amount, from), UsedAfter(used, legs, key, amount, from));
    }
  }
}
