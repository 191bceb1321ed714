// From the ledger's open reservations to the modules an aggregate consults (packages/control/src/facts.ts:37-72;
// packages/control/src/pipeline.ts:190-300).
module Pending {
  import opened Common
  import opened Core
  import L = Ledger
  import A = Aggregate
  import S = AggregateSafety
  import X = AggregateExact

  const MAX_RESERVATION_FACTS: nat := 4096

  datatype Effect = Effect(quantity: L.Quantity, market: Option<Resource>, account: Option<Resource>, consumed: int)

  // An open generation, with its whole reserved contribution: what is consumed is carried, not subtracted.
  datatype Fact = Fact(
    reservation: L.ReservationId, generation: int, action: Digest, moduleRef: ModuleRef, implementation: Digest,
    lineage: seq<L.AuthorityId>, committedAt: nat, effects: seq<Effect>)

  function EffectOf(d: L.Demand): Effect {
    Effect(d.contribution.quantity, d.contribution.market, d.contribution.account, d.consumed)
  }

  function FactOf(r: L.Reservation): Fact {
    Fact(r.id, r.generation, r.action, r.moduleRef, r.implementation, r.lineage, r.committedAt,
      seq(|r.demands|, i requires 0 <= i < |r.demands| => EffectOf(r.demands[i])))
  }

  // The facts of a listing of the ledger's reservations, in its order.
  function FactsIn(reservations: map<L.ReservationId, L.Reservation>, listing: seq<L.ReservationId>): seq<Fact> {
    if listing == [] then []
    else
      var before, id := FactsIn(reservations, listing[..|listing| - 1]), listing[|listing| - 1];
      if id in reservations && reservations[id].status.ACTIVE? then before + [FactOf(reservations[id])] else before
  }

  lemma {:induction false} FactsGrow(reservations: map<L.ReservationId, L.Reservation>, listing: seq<L.ReservationId>, n: nat)
    requires n <= |listing|
    ensures |FactsIn(reservations, listing[..n])| <= |FactsIn(reservations, listing)|
    decreases |listing|
  {
    if n < |listing| {
      FactsGrow(reservations, listing[..|listing| - 1], n);
      assert listing[..|listing| - 1][..n] == listing[..n];
    } else {
      assert listing[..n] == listing;
    }
  }

  // One pass over the reservations; more open ones than the bound is a refusal, never a shorter list.
  method ReservationFacts(reservations: map<L.ReservationId, L.Reservation>, listing: seq<L.ReservationId>)
    returns (r: Result<seq<Fact>>)
    requires forall id :: id in listing ==> id in reservations
    ensures r == if |FactsIn(reservations, listing)| <= MAX_RESERVATION_FACTS then Ok(FactsIn(reservations, listing))
                 else Refused("TOO_MANY_OPEN_RESERVATIONS")
  {
    var out: seq<Fact> := [];
    var i := 0;
    while i < |listing|
      invariant 0 <= i <= |listing|
      invariant out == FactsIn(reservations, listing[..i]) && |out| <= MAX_RESERVATION_FACTS
    {
      assert listing[..i + 1][..i] == listing[..i];
      var record := reservations[listing[i]];
      if record.status.ACTIVE? {
        if |out| == MAX_RESERVATION_FACTS {
          FactsGrow(reservations, listing, i + 1);
          return Refused("TOO_MANY_OPEN_RESERVATIONS");
        }
        out := out + [FactOf(record)];
      }
      i := i + 1;
    }
    assert listing[..i] == listing;
    r := Ok(out);
  }

  // Exactly the open reservations are facts: none is dropped, and a closed generation is none.
  lemma {:induction false} FactsAreOpen(reservations: map<L.ReservationId, L.Reservation>, listing: seq<L.ReservationId>, f: Fact)
    ensures f in FactsIn(reservations, listing)
       <==> exists id :: id in listing && id in reservations && reservations[id].status.ACTIVE? && f == FactOf(reservations[id])
    decreases |listing|
  {
    if listing != [] {
      var front, last := listing[..|listing| - 1], listing[|listing| - 1];
      FactsAreOpen(reservations, front, f);
      assert forall id :: id in listing <==> id in front || id == last;
    }
  }

  // What a fact says of its reservation: its identity and, demand by demand, the whole contribution and what was consumed.
  predicate States(f: Fact, r: L.Reservation) {
    && f.reservation == r.id && f.generation == r.generation && f.action == r.action && f.moduleRef == r.moduleRef
    && f.implementation == r.implementation && f.lineage == r.lineage && f.committedAt == r.committedAt
    && |f.effects| == |r.demands|
    && forall i :: 0 <= i < |r.demands| ==>
         && f.effects[i].quantity == r.demands[i].contribution.quantity && f.effects[i].market == r.demands[i].contribution.market
         && f.effects[i].account == r.demands[i].contribution.account && f.effects[i].consumed == r.demands[i].consumed
  }

  lemma FactIs(f: Fact, r: L.Reservation)
    ensures f == FactOf(r) <==> States(f, r)
  {
    if States(f, r) {
      assert f.effects == FactOf(r).effects;
    }
  }

  // Every open reservation of a listing is stated, and nothing else is.
  lemma FactsState(reservations: map<L.ReservationId, L.Reservation>, listing: seq<L.ReservationId>, f: Fact)
    ensures f in FactsIn(reservations, listing)
       <==> exists id :: id in listing && id in reservations && reservations[id].status.ACTIVE? && States(f, reservations[id])
  {
    FactsAreOpen(reservations, listing, f);
    hide FactOf, States, FactsIn;
    forall id | id in listing && id in reservations ensures f == FactOf(reservations[id]) <==> States(f, reservations[id]) {
      FactIs(f, reservations[id]);
    }
  }

  // ---- Facts per module ------------------------------------------------------------------------

  function Own(m: ModuleRef, facts: seq<Fact>): seq<Fact> {
    if facts == [] then []
    else Own(m, facts[..|facts| - 1]) + (if facts[|facts| - 1].moduleRef == m then [facts[|facts| - 1]] else [])
  }

  function Foreign(m: ModuleRef, facts: seq<Fact>): seq<L.ReservationId> {
    if facts == [] then []
    else
      var last := facts[|facts| - 1];
      Foreign(m, facts[..|facts| - 1])
      + (if last.moduleRef != m && last.moduleRef.domainId == m.domainId then [last.reservation] else [])
  }

  method FactsFor(m: ModuleRef, facts: seq<Fact>) returns (own: seq<Fact>, foreign: seq<L.ReservationId>)
    ensures own == Own(m, facts) && foreign == Foreign(m, facts)
  {
    own, foreign := [], [];
    var i := 0;
    while i < |facts|
      invariant 0 <= i <= |facts|
      invariant own == Own(m, facts[..i]) && foreign == Foreign(m, facts[..i])
    {
      assert facts[..i + 1][..i] == facts[..i];
      var f := facts[i];
      if f.moduleRef == m {
        own := own + [f];
      } else if f.moduleRef.domainId == m.domainId {
        foreign := foreign + [f.reservation];
      }
      i := i + 1;
    }
    assert facts[..i] == facts;
  }

  // Another module's fact of the same domain.
  predicate OfDomain(f: Fact, m: ModuleRef) {
    f.moduleRef != m && f.moduleRef.domainId == m.domainId
  }

  // A module sees exactly its own facts, and is told of every other open reservation of its domain.
  lemma {:induction false} DomainIsAccountedFor(m: ModuleRef, facts: seq<Fact>, f: Fact)
    ensures f in Own(m, facts) <==> f in facts && f.moduleRef == m
    ensures f in facts && f.moduleRef != m && f.moduleRef.domainId == m.domainId ==> f.reservation in Foreign(m, facts)
    ensures forall id :: id in Foreign(m, facts) ==> exists g :: g in facts && g.reservation == id && OfDomain(g, m)
    decreases |facts|
  {
    if facts != [] {
      var front, last := facts[..|facts| - 1], facts[|facts| - 1];
      DomainIsAccountedFor(m, front, f);
      assert forall g :: g in facts <==> g in front || g == last;
      forall id | id in Foreign(m, facts) ensures exists g :: g in facts && g.reservation == id && OfDomain(g, m) {
        if id in Foreign(m, front) {
          var g :| g in front && g.reservation == id && OfDomain(g, m);
          assert g in facts;
        } else {
          assert last in facts;
        }
      }
    }
  }

  // Every module with an open reservation, once.
  function ActiveModules(facts: seq<Fact>): seq<ModuleRef> {
    if facts == [] then []
    else
      var before, m := ActiveModules(facts[..|facts| - 1]), facts[|facts| - 1].moduleRef;
      if m in before then before else before + [m]
  }

  lemma {:induction false} ActiveAre(facts: seq<Fact>, m: ModuleRef)
    ensures m in ActiveModules(facts) <==> exists f :: f in facts && f.moduleRef == m
    decreases |facts|
  {
    if facts != [] {
      var front, last := facts[..|facts| - 1], facts[|facts| - 1];
      ActiveAre(front, m);
      ActiveAre(front, last.moduleRef);
      assert forall f :: f in facts <==> f in front || f == last;
    }
  }

  // ---- Participants ----------------------------------------------------------------------------

  // A module joins once, however often it is named.
  function Joined(drafts: seq<ModuleRef>, m: ModuleRef): seq<ModuleRef> {
    if m in drafts then drafts else drafts + [m]
  }

  // Every resolvable module of a list joins.
  method JoinAll(before: seq<ModuleRef>, ms: seq<ModuleRef>, resolves: ModuleRef -> bool) returns (drafts: seq<ModuleRef>)
    requires A.DistinctRefs(before)
    ensures A.DistinctRefs(drafts)
    ensures forall m :: m in drafts <==> m in before || (m in ms && resolves(m))
  {
    drafts := before;
    var i := 0;
    while i < |ms|
      invariant 0 <= i <= |ms| && A.DistinctRefs(drafts)
      invariant forall m :: m in drafts <==> m in before || (m in ms[..i] && resolves(m))
    {
      if resolves(ms[i]) {
        drafts := Joined(drafts, ms[i]);
      }
      assert ms[..i + 1] == ms[..i] + [ms[i]];
      i := i + 1;
    }
    assert ms[..i] == ms;
  }

  // The acting module, the definition of every module invariant, and for every aggregate its contributors and every
  // module with an open reservation; each once, and those of an aggregate only when they resolve.
  method JoinParticipants(
      acting: ModuleRef, owners: seq<ModuleRef>, aggregates: seq<seq<ModuleRef>>, active: seq<ModuleRef>, resolves: ModuleRef -> bool)
    returns (drafts: seq<ModuleRef>)
    ensures A.DistinctRefs(drafts)
    ensures forall m :: m in drafts <==>
              || m == acting || m in owners
              || (resolves(m) && aggregates != [] && (m in active || exists k :: 0 <= k < |aggregates| && m in aggregates[k]))
  {
    drafts := JoinAll([acting], owners, m => true);
    var j := 0;
    while j < |aggregates|
      invariant 0 <= j <= |aggregates| && A.DistinctRefs(drafts)
      invariant forall m :: m in drafts <==>
                  || m == acting || m in owners
                  || (resolves(m) && j > 0 && (m in active || exists k :: 0 <= k < j && m in aggregates[k]))
    {
      drafts := JoinAll(drafts, aggregates[j] + active + [acting], resolves);
      j := j + 1;
    }
  }

  // One view per joined module: the participants an aggregate is evaluated over are pairwise different.
  lemma ParticipantsDiffer(drafts: seq<ModuleRef>, views: seq<A.View>)
    requires A.DistinctRefs(drafts) && S.ModulesOf(views) == drafts
    ensures S.DistinctViews(views)
  {
    forall i, j | 0 <= i < j < |views| ensures views[i].moduleRef != views[j].moduleRef {
      assert drafts[i] == views[i].moduleRef && drafts[j] == views[j].moduleRef;
    }
  }

  // ---- Closed scope ----------------------------------------------------------------------------

  // Closed scope, from the ledger on: when an aggregate holds, the module of every open reservation was consulted,
  // and, for parameters that count evenly, the exact total of all matching facts of all consulted modules is within the limit.
  lemma HoldingCoversEveryOpenReservation(spec: A.Spec, views: seq<A.View>, s: L.State, listing: seq<L.ReservationId>, id: L.ReservationId)
    requires A.ValidParams(spec.params) && A.ValidViews(views) && S.DistinctViews(views) && spec.asset.kind.CANONICAL_ASSET?
    requires forall x :: x in listing <==> x in s.reservations
    requires A.Evaluate(spec, views, ActiveModules(FactsIn(s.reservations, listing))).outcome == A.HOLDS
    requires id in s.reservations && s.reservations[id].status.ACTIVE?
    ensures s.reservations[id].moduleRef in S.ModulesOf(views)
    ensures S.Counted(spec.params) ==>
              A.Fine(S.AllMatching(spec, views)) && A.Exactly(S.AllMatching(spec, views)) <= A.LimitExactly(spec.params)
  {
    hide A.Evaluate, A.ValidViews, A.ValidParams, A.Fine, A.Exactly, A.LimitExactly, S.AllMatching, S.DistinctViews, S.ModulesOf,
      S.Counted, FactsIn, ActiveModules;
    var facts := FactsIn(s.reservations, listing);
    var active := ActiveModules(facts);
    S.HoldingParts(spec, views, active);
    S.ConsultedAll(views, active);
    if S.Counted(spec.params) {
      S.HoldsBoundsEverything(spec, views, active);
    }
    var f := FactOf(s.reservations[id]);
    FactsAreOpen(s.reservations, listing, f);
    ActiveAre(facts, f.moduleRef);
    var i :| 0 <= i < |active| && active[i] == f.moduleRef;
  }

  // For parameters that do not, consulting everything is not enough: over any ledger there are participants, the module
  // of every open reservation among them, for which the aggregate holds and their total is over the limit.
  lemma ConsultingEveryoneIsNotEnough(p: A.Params, asset: Resource, s: L.State, listing: seq<L.ReservationId>)
    returns (views: seq<A.View>)
    requires A.ValidParams(p) && !S.Counted(p) && X.ScopedAsset(asset)
    requires forall x :: x in listing ==> x in s.reservations && ValidModule(s.reservations[x].moduleRef)
    requires |ActiveModules(FactsIn(s.reservations, listing))| <= X.MAX_PARTICIPANTS - A.MAX_AGGREGATE_CONTRIBUTORS
    ensures X.Proper(views) && forall x :: x in listing && s.reservations[x].status.ACTIVE? ==> s.reservations[x].moduleRef in S.ModulesOf(views)
    ensures var spec := A.Spec(p, asset);
            && A.Evaluate(spec, views, ActiveModules(FactsIn(s.reservations, listing))).outcome == A.HOLDS
            && A.Fine(S.AllMatching(spec, views)) && A.Exactly(S.AllMatching(spec, views)) > A.LimitExactly(p)
  {
    hide A.Evaluate, A.ValidParams, A.Fine, A.Exactly, A.LimitExactly, S.AllMatching, S.ModulesOf, S.Counted, X.Proper, X.ScopedAsset,
      ValidModule, FactsIn, ActiveModules;
    var facts := FactsIn(s.reservations, listing);
    var active := ActiveModules(facts);
    forall m | m in active ensures ValidModule(m) {
      ActiveAre(facts, m);
      var f :| f in facts && f.moduleRef == m;
      FactsAreOpen(s.reservations, listing, f);
    }
    views := X.UnevenBreaks(p, asset, active);
    forall x | x in listing && s.reservations[x].status.ACTIVE? ensures s.reservations[x].moduleRef in S.ModulesOf(views) {
      var f := FactOf(s.reservations[x]);
      FactsAreOpen(s.reservations, listing, f);
      ActiveAre(facts, f.moduleRef);
      var i :| 0 <= i < |active| && active[i] == f.moduleRef;
    }
  }
}
