// The cross-module aggregate `core.aggregate-max` (packages/control/src/aggregate.ts).
module Aggregate {
  import opened Common
  import opened Core
  import opened Decimals
  import opened StateAdmission
  import opened StateBindings

  // ---- Parameters, facts, participants ---------------------------------------------------------

  datatype Params = Params(kind: QuantityKind, unit: string, decimals: nat, limit: int, contributors: seq<ModuleRef>)

  datatype Spec = Spec(params: Params, asset: Resource)

  const MAX_AGGREGATE_CONTRIBUTORS: nat := 12

  // What the parameter decoder guarantees. It does not guarantee that the contributors are distinct.
  predicate ValidParams(p: Params) {
    && ValidUnit(p.unit) && p.decimals <= MAX_DECIMALS && 0 <= p.limit <= UINT256_MAX
    && 1 <= |p.contributors| <= MAX_AGGREGATE_CONTRIBUTORS
    && forall m :: m in p.contributors ==> ValidModule(m)
  }

  datatype Basis = MARK | EXECUTION | LIMIT

  datatype ValuationSource = FromState(state: Envelope) | FromObservation | FromAction

  datatype Price = Price(numeratorUnit: string, denominatorUnit: string, decimals: nat, atoms: int)

  datatype Valuation = Valuation(basis: Basis, source: ValuationSource, observedAt: int, price: Price)

  datatype Fact = Fact(
    kind: QuantityKind, unit: string, decimals: nat, atoms: int, asset: Option<Resource>, valuation: Option<Valuation>)

  datatype View = View(moduleRef: ModuleRef, facts: seq<Fact>, admitted: set<Envelope>)

  // Only a count is measured in this unit, and a count in no other.
  const COUNT_UNIT: string := "COUNT"

  // Whether any quantity of this kind and unit names a canonical asset.
  predicate Matchable(k: QuantityKind, unit: string) {
    !k.TOKEN_AMOUNT? && !k.PNL? && !k.COUNT? && unit != COUNT_UNIT
  }

  // The asset a quantity of each kind names: none, a canonical one, a representation, or either.
  predicate AssetFits(k: QuantityKind, asset: Option<Resource>) {
    && (asset.Some? ==> ValidResource(asset.value) && AssetKind(asset.value.kind))
    && match k
       case TOKEN_AMOUNT => asset.Some? && asset.value.kind.REPRESENTATION_ASSET?
       case POSITION_SIZE => asset.Some? && asset.value.kind.CANONICAL_ASSET?
       case NOTIONAL => asset.Some? && asset.value.kind.CANONICAL_ASSET?
       case NET_EXPOSURE => asset.Some? && asset.value.kind.CANONICAL_ASSET?
       case GROSS_EXPOSURE => asset.Some? ==> asset.value.kind.CANONICAL_ASSET?
       case PNL => asset.None?
       case COUNT => asset.None?
       case _ => asset.Some?
  }

  predicate ValidPrice(p: Price) {
    ValidUnit(p.numeratorUnit) && ValidUnit(p.denominatorUnit) && p.decimals <= MAX_DECIMALS && 0 <= p.atoms <= UINT256_MAX
  }

  // A price is a snapshot's mark, a fill's, or an order's own limit, and its basis says which.
  predicate ValidValuation(v: Valuation) {
    && ValidPrice(v.price) && INT64_MIN <= v.observedAt <= INT64_MAX
    && (v.basis.MARK? <==> v.source.FromState?) && (v.basis.EXECUTION? <==> v.source.FromObservation?)
  }

  predicate ValuationFits(k: QuantityKind, unit: string, v: Option<Valuation>) {
    && (v.Some? ==> ValidValuation(v.value) && v.value.price.numeratorUnit == unit)
    && match k
       case NOTIONAL => v.Some? && !v.value.basis.MARK?
       case GROSS_EXPOSURE => v.Some? && v.value.basis.MARK?
       case NET_EXPOSURE => v.Some? && v.value.basis.MARK?
       case PNL => v.Some? ==> v.value.basis.MARK?
       case _ => v.None?
  }

  // A validated quantity.
  predicate ValidFact(f: Fact) {
    && ValidUnit(f.unit) && (f.kind.COUNT? <==> f.unit == COUNT_UNIT)
    && f.decimals <= MAX_DECIMALS
    && (if SignedKind(f.kind) then INT256_MIN <= f.atoms <= INT256_MAX else 0 <= f.atoms <= UINT256_MAX)
    && AssetFits(f.kind, f.asset)
    && ValuationFits(f.kind, f.unit, f.valuation)
  }

  predicate ValidViews(views: seq<View>) {
    forall i, j :: 0 <= i < |views| && 0 <= j < |views[i].facts| ==> ValidFact(views[i].facts[j])
  }

  predicate Matches(spec: Spec, f: Fact) {
    f.kind == spec.params.kind && f.unit == spec.params.unit && f.asset == Some(spec.asset)
  }

  function MatchingFacts(spec: Spec, facts: seq<Fact>): seq<Fact> {
    if facts == [] then []
    else (if Matches(spec, facts[0]) then [facts[0]] else []) + MatchingFacts(spec, facts[1..])
  }

  function Find(views: seq<View>, m: ModuleRef): Option<View> {
    if views == [] then None
    else if views[0].moduleRef == m then Some(views[0])
    else Find(views[1..], m)
  }

  // ---- Scope and valuation ---------------------------------------------------------------------

  predicate Contributor(spec: Spec, m: ModuleRef) {
    m in spec.params.contributors
  }

  function CheckScope(spec: Spec, views: seq<View>, active: seq<ModuleRef>): Option<string> {
    if exists i :: 0 <= i < |views| && !Contributor(spec, views[i].moduleRef) && MatchingFacts(spec, views[i].facts) != []
    then Some("UNDECLARED_CONTRIBUTOR")
    else if exists i :: 0 <= i < |spec.params.contributors| && Find(views, spec.params.contributors[i]).None?
    then Some("CONTRIBUTOR_UNAVAILABLE")
    else if exists i :: 0 <= i < |active| && Find(views, active[i]).None?
    then Some("UNDECLARED_MODULE_UNAVAILABLE")
    else None
  }

  // What two marks must agree on: the reading of the aggregate's asset they were priced at, and the price.
  datatype ValuationContext = ValuationContext(source: string, sequence: Sequence, observedAt: int, price: Price)

  // The context a mark was taken in; None for other bases, a refusal when the cited snapshot does not fit.
  function ContextOf(spec: Spec, f: Fact, admitted: set<Envelope>): Result<Option<ValuationContext>> {
    if f.valuation.None? || !f.valuation.value.basis.MARK? then Ok(None)
    else
      var v := f.valuation.value;
      if !v.source.FromState? then Refused("VALUATION_SOURCE_INVALID")
      else if v.source.state !in admitted then Refused("VALUATION_STATE_UNRESOLVED")
      else
        var e := v.source.state;
        if !e.subject.kind.CANONICAL_ASSET? || e.subject != spec.asset then Refused("VALUATION_NOT_OF_AGGREGATE_ASSET")
        else if e.observedAt != v.observedAt then Refused("VALUATION_PROVENANCE_MISMATCH")
        else Ok(Some(ValuationContext(e.sourceId, e.sequence, e.observedAt, v.price)))
  }

  // A matching fact of a contributor, with the snapshots it may cite.
  datatype Cited = Cited(fact: Fact, admitted: set<Envelope>)

  function Cite(facts: seq<Fact>, admitted: set<Envelope>): seq<Cited> {
    seq(|facts|, i requires 0 <= i < |facts| => Cited(facts[i], admitted))
  }

  function AllCited(spec: Spec, views: seq<View>): seq<Cited> {
    if views == [] then []
    else AllCited(spec, views[..|views| - 1]) + CitedBy(spec, views[|views| - 1])
  }

  function CitedBy(spec: Spec, v: View): seq<Cited> {
    if Contributor(spec, v.moduleRef) then Cite(MatchingFacts(spec, v.facts), v.admitted) else []
  }

  // The state of the source's scan: the one context seen, and how many facts were marked and unmarked.
  datatype Scan = Scan(context: Option<ValuationContext>, marked: nat, unmarked: nat)

  function ScanOne(spec: Spec, s: Scan, c: Cited): Result<Scan> {
    match ContextOf(spec, c.fact, c.admitted)
    case Refused(code) => Refused(code)
    case Ok(None) => Ok(s.(unmarked := s.unmarked + 1))
    case Ok(Some(k)) =>
      if s.context.Some? && s.context.value != k then Refused("VALUATION_CONTEXT_MISMATCH")
      else Ok(s.(context := Some(k), marked := s.marked + 1))
  }

  function ScanAll(spec: Spec, cited: seq<Cited>): Result<Scan> {
    if cited == [] then Ok(Scan(None, 0, 0))
    else match ScanAll(spec, cited[..|cited| - 1])
      case Refused(code) => Refused(code)
      case Ok(s) => ScanOne(spec, s, cited[|cited| - 1])
  }

  function CheckValuations(spec: Spec, views: seq<View>): Option<string> {
    match ScanAll(spec, AllCited(spec, views))
    case Refused(code) => Some(code)
    case Ok(s) => if s.marked > 0 && s.unmarked > 0 then Some("VALUATION_BASIS_MIXED") else None
  }

  // One participant's matching facts, against the context seen so far.
  method ScanView(spec: Spec, v: View, ghost before: seq<Cited>, start: Scan) returns (r: Result<Scan>)
    requires ScanAll(spec, before) == Ok(start)
    ensures r == ScanAll(spec, before + CitedBy(spec, v))
  {
    hide ContextOf, MatchingFacts;
    if !Contributor(spec, v.moduleRef) {
      assert before + [] == before;
      return Ok(start);
    }
    var facts := MatchingFacts(spec, v.facts);
    ghost var all, k := before + Cite(facts, v.admitted), |before|;
    var s := start;
    var j := 0;
    assert all[..k] == before;
    while j < |facts|
      invariant 0 <= j <= |facts| && k == |before| + j
      invariant ScanAll(spec, all[..k]) == Ok(s)
    {
      ScanNext(spec, all, k);
      assert all[k] == Cited(facts[j], v.admitted);
      var one := ContextOf(spec, facts[j], v.admitted);
      if one.Refused? || (one.value.Some? && s.context.Some? && s.context.value != one.value.value) {
        return Refused(if one.Refused? then one.code else "VALUATION_CONTEXT_MISMATCH");
      }
      s := if one.value.None? then s.(unmarked := s.unmarked + 1) else s.(context := one.value, marked := s.marked + 1);
      j, k := j + 1, k + 1;
    }
    assert all[..k] == all;
    r := Ok(s);
  }

  // Scanning one more; a refusal is the refusal of the whole.
  lemma ScanNext(spec: Spec, all: seq<Cited>, k: nat)
    requires k < |all| && ScanAll(spec, all[..k]).Ok?
    ensures ScanAll(spec, all[..k + 1]) == ScanOne(spec, ScanAll(spec, all[..k]).value, all[k])
    ensures ScanAll(spec, all[..k + 1]).Refused? ==> ScanAll(spec, all) == ScanAll(spec, all[..k + 1])
  {
    hide ScanOne;
    var upto, rest := all[..k + 1], all[k + 1..];
    assert upto[..k] == all[..k] && all == upto + rest;
    if ScanAll(spec, upto).Refused? {
      ScanStops(spec, upto, rest);
    }
  }

  // Every contributor's matching facts, one context for all that are marked, and no mixture of bases.
  method ScanValuations(spec: Spec, views: seq<View>) returns (r: Option<string>)
    ensures r == CheckValuations(spec, views)
  {
    hide ScanOne, CitedBy;
    var s := Scan(None, 0, 0);
    var i := 0;
    while i < |views|
      invariant 0 <= i <= |views|
      invariant ScanAll(spec, AllCited(spec, views[..i])) == Ok(s)
    {
      assert views[..i + 1][..i] == views[..i];
      assert AllCited(spec, views[..i + 1]) == AllCited(spec, views[..i]) + CitedBy(spec, views[i]);
      var next := ScanView(spec, views[i], AllCited(spec, views[..i]), s);
      if next.Refused? {
        CitedSplit(spec, views, i + 1);
        ScanStops(spec, AllCited(spec, views[..i + 1]), CitedFrom(spec, views, i + 1));
        return Some(next.code);
      }
      s := next.value;
      i := i + 1;
    }
    assert views[..i] == views;
    r := if s.marked > 0 && s.unmarked > 0 then Some("VALUATION_BASIS_MIXED") else None;
  }

  function CitedFrom(spec: Spec, views: seq<View>, i: nat): seq<Cited>
    requires i <= |views|
    decreases |views| - i
  {
    if i == |views| then [] else CitedBy(spec, views[i]) + CitedFrom(spec, views, i + 1)
  }

  lemma {:induction false} CitedSplit(spec: Spec, views: seq<View>, i: nat)
    requires i <= |views|
    ensures AllCited(spec, views) == AllCited(spec, views[..i]) + CitedFrom(spec, views, i)
    decreases |views| - i
  {
    hide CitedBy;
    if i == |views| {
      assert views[..i] == views;
    } else {
      CitedSplit(spec, views, i + 1);
      assert views[..i + 1][..i] == views[..i];
    }
  }

  lemma {:induction false} ScanStops(spec: Spec, xs: seq<Cited>, ys: seq<Cited>)
    requires ScanAll(spec, xs).Refused?
    ensures ScanAll(spec, xs + ys) == ScanAll(spec, xs)
    decreases |ys|
  {
    if ys == [] {
      assert xs + ys == xs;
    } else {
      var front, all := ys[..|ys| - 1], xs + ys;
      assert all[..|all| - 1] == xs + front;
      ScanStops(spec, xs, front);
    }
  }

  // ---- The exact sum ---------------------------------------------------------------------------

  function FactsOf(spec: Spec, views: seq<View>, m: ModuleRef): seq<Fact> {
    match Find(views, m)
    case None => []
    case Some(v) => MatchingFacts(spec, v.facts)
  }

  function Included(spec: Spec, views: seq<View>, contributors: seq<ModuleRef>): seq<Fact> {
    if contributors == [] then []
    else Included(spec, views, contributors[..|contributors| - 1]) + FactsOf(spec, views, contributors[|contributors| - 1])
  }

  function Widest(scale: nat, facts: seq<Fact>): (r: nat)
    ensures r >= scale
    ensures forall i :: 0 <= i < |facts| ==> facts[i].decimals <= r
  {
    if facts == [] then scale
    else
      var before := Widest(scale, facts[..|facts| - 1]);
      var last := facts[|facts| - 1].decimals;
      if last > before then last else before
  }

  // The facts' total in units of 10^-scale.
  function SumAt(facts: seq<Fact>, scale: nat): int
    requires forall i :: 0 <= i < |facts| ==> facts[i].decimals <= scale
  {
    if facts == [] then 0
    else SumAt(facts[..|facts| - 1], scale) + facts[|facts| - 1].atoms * Pow10(scale - facts[|facts| - 1].decimals)
  }

  datatype Outcome = HOLDS | VIOLATED | UNKNOWN

  datatype Evaluation = Evaluation(outcome: Outcome, reason: string, decimals: nat, observed: int)

  function NotEvaluable(reason: string): Evaluation {
    Evaluation(UNKNOWN, reason, 0, 0)
  }

  // The limit carried to a finer scale.
  function LimitAt(p: Params, scale: nat): int
    requires p.decimals <= scale
  {
    p.limit * Pow10(scale - p.decimals)
  }

  function SumAggregate(spec: Spec, views: seq<View>): Evaluation {
    var p := spec.params;
    if exists i :: 0 <= i < |p.contributors| && Find(views, p.contributors[i]).None? then NotEvaluable("CONTRIBUTOR_UNAVAILABLE")
    else
      var facts := Included(spec, views, p.contributors);
      var scale := Widest(p.decimals, facts);
      var sum := SumAt(facts, scale);
      if sum <= LimitAt(p, scale)
      then Evaluation(HOLDS, "AGGREGATE_WITHIN_LIMIT", scale, sum)
      else Evaluation(VIOLATED, "AGGREGATE_LIMIT_EXCEEDED", scale, sum)
  }

  lemma WidestNext(decimals: nat, facts: seq<Fact>, f: Fact)
    ensures Widest(decimals, facts + [f]) == if f.decimals > Widest(decimals, facts) then f.decimals else Widest(decimals, facts)
  {
    var all := facts + [f];
    assert all[..|all| - 1] == facts && all[|all| - 1] == f;
  }

  // One contributor's facts, and the scale they need.
  method Append(before: seq<Fact>, more: seq<Fact>, decimals: nat, start: nat) returns (facts: seq<Fact>, scale: nat)
    requires start == Widest(decimals, before)
    ensures facts == before + more && scale == Widest(decimals, facts)
  {
    hide Widest;
    facts, scale := before, start;
    var j := 0;
    while j < |more|
      invariant 0 <= j <= |more|
      invariant facts == before + more[..j] && scale == Widest(decimals, facts)
    {
      var f := more[j];
      WidestNext(decimals, facts, f);
      assert more[..j + 1] == more[..j] + [f];
      facts := facts + [f];
      if f.decimals > scale {
        scale := f.decimals;
      }
      j := j + 1;
    }
    assert more[..j] == more;
  }

  // Collecting the included facts and the finest scale among them.
  method Collect(spec: Spec, views: seq<View>) returns (included: Option<seq<Fact>>, scale: nat)
    ensures included.None? <==> exists i :: 0 <= i < |spec.params.contributors| && Find(views, spec.params.contributors[i]).None?
    ensures included.Some? ==> included.value == Included(spec, views, spec.params.contributors)
    ensures included.Some? ==> scale == Widest(spec.params.decimals, included.value)
  {
    hide MatchingFacts, Find;
    var cs := spec.params.contributors;
    var facts: seq<Fact> := [];
    scale := spec.params.decimals;
    var i := 0;
    while i < |cs|
      invariant 0 <= i <= |cs|
      invariant facts == Included(spec, views, cs[..i]) && scale == Widest(spec.params.decimals, facts)
      invariant forall k :: 0 <= k < i ==> Find(views, cs[k]).Some?
    {
      var found := Find(views, cs[i]);
      if found.None? {
        return None, scale;
      }
      assert cs[..i + 1][..i] == cs[..i];
      facts, scale := Append(facts, MatchingFacts(spec, found.value.facts), spec.params.decimals, scale);
      i := i + 1;
    }
    assert cs[..i] == cs;
    included := Some(facts);
  }

  // Collect, add up at the finest scale, compare.
  method SumContributors(spec: Spec, views: seq<View>) returns (r: Evaluation)
    ensures r == SumAggregate(spec, views)
  {
    hide Included, Find;
    var p := spec.params;
    var included, scale := Collect(spec, views);
    if included.None? {
      return NotEvaluable("CONTRIBUTOR_UNAVAILABLE");
    }
    var facts := included.value;
    var sum := 0;
    var n := 0;
    while n < |facts|
      invariant 0 <= n <= |facts|
      invariant sum == SumAt(facts[..n], scale)
    {
      assert facts[..n + 1][..n] == facts[..n];
      sum := sum + facts[n].atoms * Pow10(scale - facts[n].decimals);
      n := n + 1;
    }
    assert facts[..n] == facts;
    r := if sum <= LimitAt(p, scale)
         then Evaluation(HOLDS, "AGGREGATE_WITHIN_LIMIT", scale, sum)
         else Evaluation(VIOLATED, "AGGREGATE_LIMIT_EXCEEDED", scale, sum);
  }

  // The first failing check decides; the sum is taken only when scope and valuations pass.
  function Evaluate(spec: Spec, views: seq<View>, active: seq<ModuleRef>): Evaluation {
    var scope := CheckScope(spec, views, active);
    if scope.Some? then NotEvaluable(scope.value)
    else
      var valuation := CheckValuations(spec, views);
      if valuation.Some? then NotEvaluable(valuation.value) else SumAggregate(spec, views)
  }

  // ---- Exact rationals: everything restated at the finest scale --------------------------------

  predicate Fine(facts: seq<Fact>) {
    forall i :: 0 <= i < |facts| ==> facts[i].decimals <= MAX_DECIMALS
  }

  // A total in units of 10^-38: exact, since no fact is finer.
  function Exactly(facts: seq<Fact>): int
    requires Fine(facts)
  {
    SumAt(facts, MAX_DECIMALS)
  }

  function LimitExactly(p: Params): int
    requires p.decimals <= MAX_DECIMALS
  {
    p.limit * Pow10(MAX_DECIMALS - p.decimals)
  }

  lemma ShiftOne(a: int, d: nat, scale: nat, more: nat)
    requires d <= scale
    ensures a * Pow10(scale + more - d) == (a * Pow10(scale - d)) * Pow10(more)
  {
    Pow10Sum(scale - d, more);
    MulAssoc(a, Pow10(scale - d), Pow10(more));
  }

  lemma {:induction false} SumAtShifts(facts: seq<Fact>, scale: nat, more: nat)
    requires forall i :: 0 <= i < |facts| ==> facts[i].decimals <= scale
    ensures SumAt(facts, scale + more) == SumAt(facts, scale) * Pow10(more)
    decreases |facts|
  {
    if facts != [] {
      var last := facts[|facts| - 1];
      SumAtShifts(facts[..|facts| - 1], scale, more);
      ShiftOne(last.atoms, last.decimals, scale, more);
      Distribute(SumAt(facts[..|facts| - 1], scale), last.atoms * Pow10(scale - last.decimals), Pow10(more));
    }
  }

  lemma Distribute(a: int, b: int, k: int)
    ensures (a + b) * k == a * k + b * k
  {
  }

  lemma CompareScaledUp(a: int, b: int, k: int)
    requires k > 0
    ensures a <= b <==> a * k <= b * k
  {
    MulMonotone(a, b, k);
    MulMonotone(b + 1, a, k);
  }

  lemma {:induction false} WidestBound(scale: nat, facts: seq<Fact>)
    requires scale <= MAX_DECIMALS && Fine(facts)
    ensures Widest(scale, facts) <= MAX_DECIMALS
    decreases |facts|
  {
    if facts != [] {
      WidestBound(scale, facts[..|facts| - 1]);
    }
  }

  // The verdict is about the exact rational total, whatever scale the sum was carried at.
  lemma VerdictIsExact(p: Params, facts: seq<Fact>)
    requires p.decimals <= MAX_DECIMALS && Fine(facts)
    ensures var scale := Widest(p.decimals, facts);
            SumAt(facts, scale) <= LimitAt(p, scale) <==> Exactly(facts) <= LimitExactly(p)
  {
    var scale := Widest(p.decimals, facts);
    WidestBound(p.decimals, facts);
    var more := MAX_DECIMALS - scale;
    SumAtShifts(facts, scale, more);
    ShiftOne(p.limit, p.decimals, scale, more);
    CompareScaledUp(SumAt(facts, scale), p.limit * Pow10(scale - p.decimals), Pow10(more));
  }

  // ---- Totals per module -----------------------------------------------------------------------

  function SumOf(ms: seq<ModuleRef>, f: ModuleRef -> int): int {
    if ms == [] then 0 else SumOf(ms[..|ms| - 1], f) + f(ms[|ms| - 1])
  }

  predicate FineViews(views: seq<View>) {
    forall i :: 0 <= i < |views| ==> Fine(views[i].facts)
  }

  lemma {:induction false} MatchingFine(spec: Spec, facts: seq<Fact>)
    requires Fine(facts)
    ensures Fine(MatchingFacts(spec, facts))
    decreases |facts|
  {
    if facts != [] {
      assert forall i :: 0 <= i < |facts[1..]| ==> facts[1..][i] == facts[i + 1];
      MatchingFine(spec, facts[1..]);
    }
  }

  lemma {:induction false} FactsOfFine(spec: Spec, views: seq<View>, m: ModuleRef)
    requires FineViews(views)
    ensures Fine(FactsOf(spec, views, m))
    decreases |views|
  {
    if views != [] {
      if views[0].moduleRef == m {
        MatchingFine(spec, views[0].facts);
      } else {
        FactsOfFine(spec, views[1..], m);
      }
    }
  }

  function ModuleTotal(spec: Spec, views: seq<View>, m: ModuleRef): int {
    var facts := FactsOf(spec, views, m);
    if Fine(facts) then Exactly(facts) else 0
  }

  lemma {:induction false} SumAtConcat(xs: seq<Fact>, ys: seq<Fact>, scale: nat)
    requires forall i :: 0 <= i < |xs| ==> xs[i].decimals <= scale
    requires forall i :: 0 <= i < |ys| ==> ys[i].decimals <= scale
    ensures SumAt(xs + ys, scale) == SumAt(xs, scale) + SumAt(ys, scale)
    decreases |ys|
  {
    if ys == [] {
      assert xs + ys == xs;
    } else {
      assert (xs + ys)[..|xs + ys| - 1] == xs + ys[..|ys| - 1];
      SumAtConcat(xs, ys[..|ys| - 1], scale);
    }
  }

  // Each module's exact contribution.
  function Totals(spec: Spec, views: seq<View>): ModuleRef -> int {
    m => ModuleTotal(spec, views, m)
  }

  lemma {:induction false} IncludedTotal(spec: Spec, views: seq<View>, ms: seq<ModuleRef>)
    requires FineViews(views)
    ensures Fine(Included(spec, views, ms)) && Exactly(Included(spec, views, ms)) == SumOf(ms, Totals(spec, views))
    decreases |ms|
  {
    if ms != [] {
      IncludedTotal(spec, views, ms[..|ms| - 1]);
      FactsOfFine(spec, views, ms[|ms| - 1]);
      SumAtConcat(Included(spec, views, ms[..|ms| - 1]), FactsOf(spec, views, ms[|ms| - 1]), MAX_DECIMALS);
    }
  }

  // The sum's verdict, as one comparison of exact totals.
  lemma SumVerdict(spec: Spec, views: seq<View>)
    requires spec.params.decimals <= MAX_DECIMALS && FineViews(views)
    requires forall i :: 0 <= i < |spec.params.contributors| ==> Find(views, spec.params.contributors[i]).Some?
    ensures SumAggregate(spec, views).outcome == HOLDS
       <==> SumOf(spec.params.contributors, Totals(spec, views)) <= LimitExactly(spec.params)
    ensures SumAggregate(spec, views).outcome != UNKNOWN
  {
    var cs := spec.params.contributors;
    IncludedTotal(spec, views, cs);
    var facts := Included(spec, views, cs);
    VerdictIsExact(spec.params, facts);
    hide Included, Exactly, LimitExactly, SumOf, Totals, Widest, SumAt, LimitAt, Fine, FineViews;
  }

  lemma {:induction false} SumSame(ms: seq<ModuleRef>, f: ModuleRef -> int, g: ModuleRef -> int)
    requires forall i :: 0 <= i < |ms| ==> f(ms[i]) == g(ms[i])
    ensures SumOf(ms, f) == SumOf(ms, g)
    decreases |ms|
  {
    if ms != [] {
      SumSame(ms[..|ms| - 1], f, g);
    }
  }

  lemma {:induction false} SumConcat(xs: seq<ModuleRef>, ys: seq<ModuleRef>, f: ModuleRef -> int)
    ensures SumOf(xs + ys, f) == SumOf(xs, f) + SumOf(ys, f)
    decreases |ys|
  {
    if ys == [] {
      assert xs + ys == xs;
    } else {
      var front, all := ys[..|ys| - 1], xs + ys;
      assert all[..|all| - 1] == xs + front;
      SumConcat(xs, front, f);
    }
  }

  predicate DistinctRefs(ms: seq<ModuleRef>) {
    forall i, j :: 0 <= i < j < |ms| ==> ms[i] != ms[j]
  }

  // Taking one position out takes its value out of the sum.
  lemma SumWithout(ys: seq<ModuleRef>, k: nat, f: ModuleRef -> int) returns (others: seq<ModuleRef>)
    requires k < |ys|
    ensures others == ys[..k] + ys[k + 1..] && SumOf(ys, f) == SumOf(others, f) + f(ys[k])
  {
    var before, x, after := ys[..k], ys[k], ys[k + 1..];
    others := before + after;
    assert ys == before + [x] + after;
    SumConcat(before + [x], after, f);
    SumConcat(before, [x], f);
    SumConcat(before, after, f);
    assert [x][..0] == [];
  }

  // Taking distinct members out of a list leaves the rest: the sums add up and the lengths too.
  lemma {:induction false} Leftover(xs: seq<ModuleRef>, ys: seq<ModuleRef>, f: ModuleRef -> int) returns (zs: seq<ModuleRef>)
    requires DistinctRefs(xs) && forall i :: 0 <= i < |xs| ==> xs[i] in ys
    ensures |ys| == |xs| + |zs| && SumOf(ys, f) == SumOf(xs, f) + SumOf(zs, f)
    ensures forall z :: z in zs ==> z in ys
    decreases |xs|
  {
    if xs == [] {
      zs := ys;
    } else {
      var x, rest := xs[|xs| - 1], xs[..|xs| - 1];
      assert x in ys;
      var k :| 0 <= k < |ys| && ys[k] == x;
      var others := SumWithout(ys, k, f);
      forall i | 0 <= i < |rest| ensures rest[i] in others {
        assert rest[i] == xs[i] && xs[i] != x;
        var p :| 0 <= p < |ys| && ys[p] == xs[i];
        assert others[if p < k then p else p - 1] == ys[p];
      }
      zs := Leftover(rest, others, f);
    }
  }

  lemma {:induction false} SumNonNegative(ms: seq<ModuleRef>, f: ModuleRef -> int)
    requires forall m :: m in ms ==> f(m) >= 0
    ensures SumOf(ms, f) >= 0
    ensures SumOf(ms, f) == 0 ==> forall m :: m in ms ==> f(m) == 0
    decreases |ms|
  {
    if ms != [] {
      assert forall m :: m in ms <==> m in ms[..|ms| - 1] || m == ms[|ms| - 1];
      SumNonNegative(ms[..|ms| - 1], f);
    }
  }

  // ---- The comparator --------------------------------------------------------------------------

  datatype Narrowing = NO_WEAKER | WEAKER | UNPROVABLE

  predicate Covers(p: Params, c: Params) {
    forall i :: 0 <= i < |p.contributors| ==> p.contributors[i] in c.contributors
  }

  function Compare(p: Params, c: Params): Narrowing {
    if p.kind != c.kind || p.unit != c.unit then UNPROVABLE
    else if !Covers(p, c) then WEAKER
    else if SignedKind(p.kind) && |c.contributors| != |p.contributors| then UNPROVABLE
    else
      var scale := if p.decimals > c.decimals then p.decimals else c.decimals;
      if LimitAt(c, scale) <= LimitAt(p, scale) then NO_WEAKER else WEAKER
  }

  lemma LimitsCompareExactly(p: Params, c: Params)
    requires p.decimals <= MAX_DECIMALS && c.decimals <= MAX_DECIMALS
    ensures var scale := if p.decimals > c.decimals then p.decimals else c.decimals;
            LimitAt(c, scale) <= LimitAt(p, scale) <==> LimitExactly(c) <= LimitExactly(p)
  {
    var scale := if p.decimals > c.decimals then p.decimals else c.decimals;
    var more := MAX_DECIMALS - scale;
    ShiftOne(c.limit, c.decimals, scale, more);
    ShiftOne(p.limit, p.decimals, scale, more);
    CompareScaledUp(c.limit * Pow10(scale - c.decimals), p.limit * Pow10(scale - p.decimals), Pow10(more));
  }

  lemma CompareReflexive(p: Params)
    ensures Compare(p, p) == NO_WEAKER
  {
  }

  // Along a delegation chain, no weaker than no weaker is no weaker.
  lemma CompareTransitive(a: Params, b: Params, c: Params)
    requires ValidParams(a) && ValidParams(b) && ValidParams(c)
    requires Compare(a, b) == NO_WEAKER && Compare(b, c) == NO_WEAKER
    ensures Compare(a, c) == NO_WEAKER
  {
    LimitsCompareExactly(a, b);
    LimitsCompareExactly(b, c);
    LimitsCompareExactly(a, c);
    forall i | 0 <= i < |a.contributors| ensures a.contributors[i] in c.contributors {
      assert a.contributors[i] in b.contributors;
      var j :| 0 <= j < |b.contributors| && b.contributors[j] == a.contributors[i];
    }
  }

  // ---- Soundness of the comparator -------------------------------------------------------------

  lemma {:induction false} MatchingSame(s: Spec, t: Spec, facts: seq<Fact>)
    requires s.params.kind == t.params.kind && s.params.unit == t.params.unit && s.asset == t.asset
    ensures MatchingFacts(s, facts) == MatchingFacts(t, facts)
    decreases |facts|
  {
    if facts != [] {
      MatchingSame(s, t, facts[1..]);
    }
  }

  lemma TotalsSame(s: Spec, t: Spec, views: seq<View>, m: ModuleRef)
    requires s.params.kind == t.params.kind && s.params.unit == t.params.unit && s.asset == t.asset
    ensures FactsOf(s, views, m) == FactsOf(t, views, m) && ModuleTotal(s, views, m) == ModuleTotal(t, views, m)
  {
    if Find(views, m).Some? {
      MatchingSame(s, t, Find(views, m).value.facts);
    }
  }

  lemma {:induction false} MatchingValid(spec: Spec, facts: seq<Fact>)
    requires forall j :: 0 <= j < |facts| ==> ValidFact(facts[j])
    ensures forall j :: 0 <= j < |MatchingFacts(spec, facts)| ==>
              ValidFact(MatchingFacts(spec, facts)[j]) && Matches(spec, MatchingFacts(spec, facts)[j])
    decreases |facts|
  {
    if facts != [] {
      assert forall i :: 0 <= i < |facts[1..]| ==> facts[1..][i] == facts[i + 1];
      MatchingValid(spec, facts[1..]);
    }
  }

  lemma {:induction false} FoundValid(views: seq<View>, m: ModuleRef)
    requires ValidViews(views) && Find(views, m).Some?
    ensures forall j :: 0 <= j < |Find(views, m).value.facts| ==> ValidFact(Find(views, m).value.facts[j])
    ensures exists i :: 0 <= i < |views| && views[i] == Find(views, m).value && views[i].moduleRef == m
    decreases |views|
  {
    if views[0].moduleRef != m {
      assert forall i :: 0 <= i < |views[1..]| ==> views[1..][i] == views[i + 1];
      FoundValid(views[1..], m);
      var i :| 0 <= i < |views[1..]| && views[1..][i] == Find(views, m).value && views[1..][i].moduleRef == m;
      assert views[i + 1] == Find(views, m).value;
    }
  }

  lemma {:induction false} UnsignedSum(facts: seq<Fact>)
    requires Fine(facts) && forall j :: 0 <= j < |facts| ==> facts[j].atoms >= 0
    ensures Exactly(facts) >= 0
    decreases |facts|
  {
    if facts != [] {
      UnsignedSum(facts[..|facts| - 1]);
      MulMonotone(0, facts[|facts| - 1].atoms, Pow10(MAX_DECIMALS - facts[|facts| - 1].decimals));
    }
  }

  // A kind that names no canonical asset never has a matching fact.
  lemma {:induction false} NothingMatches(spec: Spec, facts: seq<Fact>)
    requires !Matchable(spec.params.kind, spec.params.unit) && spec.asset.kind.CANONICAL_ASSET?
    requires forall j :: 0 <= j < |facts| ==> ValidFact(facts[j])
    ensures MatchingFacts(spec, facts) == []
    decreases |facts|
  {
    if facts != [] {
      assert ValidFact(facts[0]);
      assert forall i :: 0 <= i < |facts[1..]| ==> facts[1..][i] == facts[i + 1];
      NothingMatches(spec, facts[1..]);
    }
  }

  lemma UnmatchableTotal(spec: Spec, views: seq<View>, m: ModuleRef)
    requires ValidViews(views) && !Matchable(spec.params.kind, spec.params.unit) && spec.asset.kind.CANONICAL_ASSET?
    ensures ModuleTotal(spec, views, m) == 0
  {
    if Find(views, m).Some? {
      FoundValid(views, m);
      NothingMatches(spec, Find(views, m).value.facts);
    }
  }

  lemma UnsignedTotal(spec: Spec, views: seq<View>, m: ModuleRef)
    requires ValidViews(views) && !SignedKind(spec.params.kind)
    ensures ModuleTotal(spec, views, m) >= 0
  {
    if Find(views, m).Some? {
      FoundValid(views, m);
      MatchingValid(spec, Find(views, m).value.facts);
      var facts := FactsOf(spec, views, m);
      if Fine(facts) {
        UnsignedSum(facts);
      }
    }
  }

  lemma ViewsAreFine(views: seq<View>)
    requires ValidViews(views)
    ensures FineViews(views)
  {
  }

  // The condition under which the syntactic ordering implies the semantic one.
  predicate Orderable(p: Params) {
    DistinctRefs(p.contributors) || !Matchable(p.kind, p.unit) || (!SignedKind(p.kind) && p.limit == 0)
  }

  // The three ways a parent's sum stays below a child's, over one function of modules.
  lemma SumBounded(p: Params, c: Params, f: ModuleRef -> int)
    requires ValidParams(p) && Compare(p, c) == NO_WEAKER && ValidParams(c)
    requires !SignedKind(p.kind) ==> forall m :: f(m) >= 0
    requires !Matchable(p.kind, p.unit) ==> forall m :: f(m) == 0
    requires Orderable(p) && SumOf(c.contributors, f) <= LimitExactly(c)
    ensures SumOf(p.contributors, f) <= LimitExactly(p)
  {
    LimitsCompareExactly(p, c);
    LimitNotNegative(p);
    assert |c.contributors| == |p.contributors| || !SignedKind(p.kind);
    assert LimitExactly(c) <= LimitExactly(p) && Covers(p, c);
    hide LimitExactly, LimitAt, Compare, SumOf;
    if DistinctRefs(p.contributors) {
      var zs := Leftover(p.contributors, c.contributors, f);
      if !SignedKind(p.kind) {
        SumNonNegative(zs, f);
      } else {
        SumNothing(zs, f);
      }
    } else if !Matchable(p.kind, p.unit) {
      SumZero(p.contributors, f);
    } else {
      NothingAllowed(p, c, f);
    }
  }

  lemma LimitNotNegative(p: Params)
    requires ValidParams(p)
    ensures LimitExactly(p) >= 0 && (p.limit == 0 ==> LimitExactly(p) == 0)
  {
    MulMonotone(0, p.limit, Pow10(MAX_DECIMALS - p.decimals));
  }

  lemma SumNothing(ms: seq<ModuleRef>, f: ModuleRef -> int)
    ensures ms == [] ==> SumOf(ms, f) == 0
  {
  }

  // With nothing allowed in all, a holding child has nothing at any contributor.
  lemma NothingAllowed(p: Params, c: Params, f: ModuleRef -> int)
    requires Covers(p, c) && ValidParams(c) && (forall m :: f(m) >= 0) && SumOf(c.contributors, f) <= 0
    ensures SumOf(p.contributors, f) == 0
  {
    SumNonNegative(c.contributors, f);
    forall m | m in p.contributors ensures f(m) == 0 {
      var i :| 0 <= i < |p.contributors| && p.contributors[i] == m;
    }
    SumZero(p.contributors, f);
  }

  lemma ParentTotalBounded(p: Params, c: Params, asset: Resource, views: seq<View>)
    requires ValidParams(p) && ValidParams(c) && Compare(p, c) == NO_WEAKER && Orderable(p)
    requires ValidViews(views) && asset.kind.CANONICAL_ASSET?
    requires SumOf(c.contributors, Totals(Spec(c, asset), views)) <= LimitExactly(c)
    ensures SumOf(p.contributors, Totals(Spec(p, asset), views)) <= LimitExactly(p)
  {
    hide ModuleTotal, ValidViews;
    var s, t := Spec(p, asset), Spec(c, asset);
    var f, g := Totals(s, views), Totals(t, views);
    forall m ensures f(m) == g(m)
             ensures !SignedKind(p.kind) ==> f(m) >= 0
             ensures !Matchable(p.kind, p.unit) ==> f(m) == 0
    {
      TotalsSame(s, t, views, m);
      if !SignedKind(p.kind) {
        UnsignedTotal(s, views, m);
      }
      if !Matchable(p.kind, p.unit) {
        UnmatchableTotal(s, views, m);
      }
    }
    SumSame(c.contributors, f, g);
    SumBounded(p, c, f);
  }

  lemma {:induction false} SumZero(ms: seq<ModuleRef>, f: ModuleRef -> int)
    requires forall m :: m in ms ==> f(m) == 0
    ensures SumOf(ms, f) == 0
    decreases |ms|
  {
    if ms != [] {
      assert forall m :: m in ms[..|ms| - 1] ==> m in ms;
      SumZero(ms[..|ms| - 1], f);
    }
  }
}
