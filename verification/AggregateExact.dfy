// Exactly when "no weaker" is the truth and when a holding aggregate bounds everything, over all parameter bytes the
// decoder accepts and all participants the pipeline can pass (packages/control/src/aggregate.ts:151-382).
module AggregateExact {
  import opened Common
  import opened Core
  import opened Decimals
  import opened Canonical
  import opened StateAdmission
  import opened StateBindings
  import opened Aggregate
  import opened AggregateSafety
  import opened AggregateCodec
  import Codec
  import W = Wire

  // ---- Participants the pipeline passes --------------------------------------------------------

  const MAX_PARTICIPANTS: nat := 32
  const MAX_PROJECTION_FACTS: nat := 4 * 4096

  // Before execution a mark cites a snapshot admitted to its own module, and no fill price exists.
  predicate Sourced(f: Fact, admitted: set<Envelope>) {
    f.valuation.Some? ==> !f.valuation.value.source.FromObservation? &&
                          (f.valuation.value.source.FromState? ==> f.valuation.value.source.state in admitted)
  }

  // A checked projection of one module, with the snapshots admitted to that module.
  predicate ProperView(v: View) {
    && ValidModule(v.moduleRef) && |v.facts| <= MAX_PROJECTION_FACTS
    && (forall i :: 0 <= i < |v.facts| ==> ValidFact(v.facts[i]) && Sourced(v.facts[i], v.admitted))
    && (forall e :: e in v.admitted ==> ValidEnvelope(e) && e.moduleRef == v.moduleRef)
  }

  predicate Proper(views: seq<View>) {
    |views| <= MAX_PARTICIPANTS && DistinctViews(views) && forall i :: 0 <= i < |views| ==> ProperView(views[i])
  }

  predicate ScopedAsset(asset: Resource) {
    ValidResource(asset) && asset.kind.CANONICAL_ASSET?
  }

  lemma ProperIsValid(views: seq<View>)
    requires Proper(views)
    ensures ValidViews(views) && DistinctViews(views)
  {
    hide ValidFact, ValidEnvelope, ValidModule, Sourced;
    assert forall i :: 0 <= i < |views| ==> ProperView(views[i]);
  }

  // ---- Participants worth given amounts --------------------------------------------------------

  const ONES: Bytes :=
    [1, 1, 1, 1, 1, 1, 1, 1, 1, 1, 1, 1, 1, 1, 1, 1, 1, 1, 1, 1, 1, 1, 1, 1, 1, 1, 1, 1, 1, 1, 1, 1]

  function Reading(m: ModuleRef, asset: Resource): Envelope {
    Envelope(m, "price", asset, "feed", AUTHORITATIVE, 0, None, NoSequence, FinalityRef("chain", "final"), ONES)
  }

  lemma ReadingIsValid(m: ModuleRef, asset: Resource)
    requires ValidModule(m) && ValidResource(asset)
    ensures ValidEnvelope(Reading(m, asset))
  {
  }

  // A price in the quantity's own unit, and the valuation its kind demands.
  function UnitPrice(unit: string): Price {
    Price(unit, "SHARE", 0, 1)
  }

  function ValuationFor(k: QuantityKind, unit: string, m: ModuleRef, asset: Resource): Option<Valuation> {
    match k
    case NOTIONAL => Some(Valuation(LIMIT, FromAction, 0, UnitPrice(unit)))
    case GROSS_EXPOSURE => Some(Valuation(MARK, FromState(Reading(m, asset)), 0, UnitPrice(unit)))
    case NET_EXPOSURE => Some(Valuation(MARK, FromState(Reading(m, asset)), 0, UnitPrice(unit)))
    case _ => None
  }

  function FactWorth(p: Params, m: ModuleRef, asset: Resource, atoms: int): Fact {
    Fact(p.kind, p.unit, p.decimals, atoms, Some(asset), ValuationFor(p.kind, p.unit, m, asset))
  }

  lemma WorthIsValid(p: Params, m: ModuleRef, asset: Resource, atoms: int)
    requires ValidParams(p) && Matchable(p.kind, p.unit) && ScopedAsset(asset)
    requires -INT256_MAX <= atoms <= INT256_MAX && (!SignedKind(p.kind) ==> atoms >= 0)
    ensures ValidFact(FactWorth(p, m, asset, atoms)) && Sourced(FactWorth(p, m, asset, atoms), {Reading(m, asset)})
  {
    hide ValidIdentifier;
    assert ValidPrice(UnitPrice(p.unit));
  }

  // An amount of any size, as facts within range.
  function Pieces(p: Params, m: ModuleRef, asset: Resource, atoms: int): seq<Fact>
    decreases if atoms < 0 then -atoms else atoms
  {
    if -INT256_MAX <= atoms <= INT256_MAX then [FactWorth(p, m, asset, atoms)]
    else if atoms > 0 then Pieces(p, m, asset, atoms - INT256_MAX) + [FactWorth(p, m, asset, INT256_MAX)]
    else Pieces(p, m, asset, atoms + INT256_MAX) + [FactWorth(p, m, asset, -INT256_MAX)]
  }

  predicate AllWorth(p: Params, m: ModuleRef, asset: Resource, facts: seq<Fact>) {
    forall i :: 0 <= i < |facts| ==> facts[i] == FactWorth(p, m, asset, facts[i].atoms) && ValidFact(facts[i])
                                     && Sourced(facts[i], {Reading(m, asset)})
  }

  lemma OnePiece(p: Params, m: ModuleRef, asset: Resource, atoms: int)
    requires p.decimals <= MAX_DECIMALS
    ensures var fs := [FactWorth(p, m, asset, atoms)]; Fine(fs) && Exactly(fs) == atoms * Pow10(MAX_DECIMALS - p.decimals)
  {
    var fs := [FactWorth(p, m, asset, atoms)];
    assert fs[..0] == [];
    assert SumAt(fs, MAX_DECIMALS) == SumAt(fs[..0], MAX_DECIMALS) + atoms * Pow10(MAX_DECIMALS - p.decimals);
  }

  lemma {:induction false} PiecesAdd(p: Params, m: ModuleRef, asset: Resource, atoms: int, n: nat)
    requires ValidParams(p) && Matchable(p.kind, p.unit) && ScopedAsset(asset) && (!SignedKind(p.kind) ==> atoms >= 0)
    requires n >= 1 && -(n * INT256_MAX) <= atoms <= n * INT256_MAX
    ensures var fs := Pieces(p, m, asset, atoms);
            && AllWorth(p, m, asset, fs) && |fs| <= n
            && Fine(fs) && Exactly(fs) == atoms * Pow10(MAX_DECIMALS - p.decimals)
    decreases n
  {
    hide SumAt, Pow10, ValidFact, FactWorth, Sourced, ValidParams;
    DecimalsOf(p);
    if -INT256_MAX <= atoms <= INT256_MAX {
      OnePiece(p, m, asset, atoms);
      WorthIsValid(p, m, asset, atoms);
      WorthAtoms(p, m, asset, atoms);
    } else {
      var step := if atoms > 0 then INT256_MAX else -INT256_MAX;
      var before := n - 1;
      assert before * INT256_MAX == n * INT256_MAX - INT256_MAX;
      PiecesAdd(p, m, asset, atoms - step, before);
      OnePiece(p, m, asset, step);
      WorthIsValid(p, m, asset, step);
      WorthAtoms(p, m, asset, step);
      SumAtConcat(Pieces(p, m, asset, atoms - step), [FactWorth(p, m, asset, step)], MAX_DECIMALS);
      Distribute(atoms - step, step, Pow10(MAX_DECIMALS - p.decimals));
    }
  }

  lemma DecimalsOf(p: Params)
    requires ValidParams(p)
    ensures p.decimals <= MAX_DECIMALS
  {
  }

  lemma WorthAtoms(p: Params, m: ModuleRef, asset: Resource, atoms: int)
    ensures FactWorth(p, m, asset, atoms).atoms == atoms
  {
  }

  function WitnessView(p: Params, asset: Resource, worth: ModuleRef -> int, m: ModuleRef): View {
    View(m, if worth(m) == 0 then [] else Pieces(p, m, asset, worth(m)), {Reading(m, asset)})
  }

  // One participant per module, worth what is asked for.
  function Witness(p: Params, asset: Resource, worth: ModuleRef -> int, ms: seq<ModuleRef>): (r: seq<View>)
    ensures |r| == |ms|
  {
    seq(|ms|, i requires 0 <= i < |ms| => WitnessView(p, asset, worth, ms[i]))
  }

  const MAX_PIECES: nat := 25

  // What such participants need: valid, different modules and amounts that fit the facts of one projection.
  ghost predicate Witnesses(p: Params, asset: Resource, worth: ModuleRef -> int, ms: seq<ModuleRef>) {
    && ValidParams(p) && Matchable(p.kind, p.unit) && ScopedAsset(asset)
    && DistinctRefs(ms) && |ms| <= MAX_PARTICIPANTS && (forall m :: m in ms ==> ValidModule(m))
    && (forall m :: -(MAX_PIECES * INT256_MAX) <= worth(m) <= MAX_PIECES * INT256_MAX)
    && (!SignedKind(p.kind) ==> forall m :: worth(m) >= 0)
  }

  lemma WitnessIsProper(p: Params, asset: Resource, worth: ModuleRef -> int, ms: seq<ModuleRef>, i: nat)
    requires Witnesses(p, asset, worth, ms) && i < |ms|
    ensures var v := WitnessView(p, asset, worth, ms[i]);
            && ProperView(v) && AllWorth(p, ms[i], asset, v.facts)
            && Fine(v.facts) && Exactly(v.facts) == worth(ms[i]) * Pow10(MAX_DECIMALS - p.decimals)
  {
    hide ValidFact, FactWorth, Sourced, Pieces, ValidEnvelope, Reading, SumAt, Pow10;
    var m := ms[i];
    assert m in ms && ValidModule(m);
    hide ValidModule;
    ReadingIsValid(m, asset);
    ReadingIsOf(m, asset);
    if worth(m) == 0 {
      NothingTotal();
    } else {
      PiecesAdd(p, m, asset, worth(m), MAX_PIECES);
    }
  }

  lemma ReadingIsOf(m: ModuleRef, asset: Resource)
    ensures Reading(m, asset).moduleRef == m
  {
  }

  lemma AllProper(p: Params, asset: Resource, worth: ModuleRef -> int, ms: seq<ModuleRef>)
    requires Witnesses(p, asset, worth, ms)
    ensures Proper(Witness(p, asset, worth, ms)) && ModulesOf(Witness(p, asset, worth, ms)) == ms
  {
    hide ProperView, ValidModule, ValidParams, Pieces, ValidUnit, ValidResource;
    var views := Witness(p, asset, worth, ms);
    forall i | 0 <= i < |views| ensures ProperView(views[i]) {
      WitnessIsProper(p, asset, worth, ms, i);
    }
    assert ModulesOf(views) == ms;
  }

  lemma {:induction false} AllWorthMatches(p: Params, q: Params, m: ModuleRef, asset: Resource, facts: seq<Fact>)
    requires AllWorth(p, m, asset, facts) && q == p.(contributors := q.contributors)
    ensures MatchingFacts(Spec(q, asset), facts) == facts
    decreases |facts|
  {
    hide ValidFact, Sourced;
    if facts != [] {
      assert facts[0] == FactWorth(p, m, asset, facts[0].atoms);
      assert forall i :: 0 <= i < |facts[1..]| ==> facts[1..][i] == facts[i + 1];
      AllWorthMatches(p, q, m, asset, facts[1..]);
    }
  }

  // Each participant's exact contribution to any aggregate of this kind, unit and limit.
  lemma WitnessTotal(p: Params, q: Params, asset: Resource, worth: ModuleRef -> int, ms: seq<ModuleRef>, m: ModuleRef)
    requires Witnesses(p, asset, worth, ms) && q == p.(contributors := q.contributors) && m in ms
    ensures var views := Witness(p, asset, worth, ms);
            && Find(views, m) == Some(WitnessView(p, asset, worth, m))
            && MatchingFacts(Spec(q, asset), WitnessView(p, asset, worth, m).facts) == WitnessView(p, asset, worth, m).facts
            && ModuleTotal(Spec(q, asset), views, m) == Pow10(MAX_DECIMALS - p.decimals) * worth(m)
  {
    hide ProperView, AllWorth, Pieces, SumAt, Pow10, Fine, MatchingFacts, Find, ValidParams, ValidModule;
    var i :| 0 <= i < |ms| && ms[i] == m;
    var views := Witness(p, asset, worth, ms);
    AllProper(p, asset, worth, ms);
    FindsItself(views, i);
    WitnessIsProper(p, asset, worth, ms, i);
    AllWorthMatches(p, q, m, asset, views[i].facts);
  }

  // The sum over any list of such modules, and its verdict.
  lemma WitnessSums(p: Params, q: Params, asset: Resource, worth: ModuleRef -> int, ms: seq<ModuleRef>)
    requires Witnesses(p, asset, worth, ms) && q == p.(contributors := q.contributors) && forall m :: m in q.contributors ==> m in ms
    ensures var views := Witness(p, asset, worth, ms);
            && (forall i :: 0 <= i < |q.contributors| ==> Find(views, q.contributors[i]).Some?)
            && SumAggregate(Spec(q, asset), views).outcome == if SumOf(q.contributors, worth) <= p.limit then HOLDS else VIOLATED
  {
    hide SumAggregate, ModuleTotal, Find, SumOf, WitnessView, Proper, Witness;
    var views, s, cs := Witness(p, asset, worth, ms), Spec(q, asset), q.contributors;
    AllProper(p, asset, worth, ms);
    ProperIsValid(views);
    ViewsAreFine(views);
    var k := Pow10(MAX_DECIMALS - p.decimals);
    forall m | m in cs ensures Find(views, m).Some? && Totals(s, views)(m) == k * worth(m) {
      WitnessTotal(p, q, asset, worth, ms, m);
    }
    forall i | 0 <= i < |cs| ensures Find(views, cs[i]).Some? {
      assert cs[i] in cs;
    }
    SumScaled(cs, worth, Totals(s, views), k);
    SumVerdict(s, views);
    CompareScaledUp(SumOf(cs, worth), p.limit, k);
  }

  ghost predicate MarkedAlike(p: Params, asset: Resource, c: Cited) {
    exists m :: c.admitted == {Reading(m, asset)} && c.fact == FactWorth(p, m, asset, c.fact.atoms)
  }

  // Whether facts of this kind are marked, and the one context of those that are.
  function ContextFor(p: Params): Option<ValuationContext> {
    if p.kind.GROSS_EXPOSURE? || p.kind.NET_EXPOSURE? then Some(ValuationContext("feed", NoSequence, 0, UnitPrice(p.unit))) else None
  }

  lemma AlikeContext(p: Params, q: Params, asset: Resource, c: Cited)
    requires ScopedAsset(asset) && MarkedAlike(p, asset, c)
    ensures ContextOf(Spec(q, asset), c.fact, c.admitted) == Ok(ContextFor(p))
  {
    var m :| c.admitted == {Reading(m, asset)} && c.fact == FactWorth(p, m, asset, c.fact.atoms);
  }

  lemma WitnessCites(p: Params, q: Params, asset: Resource, worth: ModuleRef -> int, ms: seq<ModuleRef>)
    requires Witnesses(p, asset, worth, ms) && q == p.(contributors := q.contributors)
    ensures CheckValuations(Spec(q, asset), Witness(p, asset, worth, ms)).None?
  {
    hide ContextOf, Pieces, FactWorth, ValidFact, Sourced, Reading, MatchingFacts, ScanAll, AllCited, Proper, ValidModule, Find, ModuleTotal;
    var views, s := Witness(p, asset, worth, ms), Spec(q, asset);
    var cited := AllCited(s, views);
    forall i | 0 <= i < |cited| ensures ContextOf(s, cited[i].fact, cited[i].admitted) == Ok(ContextFor(p)) {
      var c := cited[i];
      CitedFromView(s, views, c);
      var j :| 0 <= j < |views| && c in CitedBy(s, views[j]);
      assert ms[j] in ms;
      WitnessTotal(p, q, asset, worth, ms, ms[j]);
      WitnessIsProper(p, asset, worth, ms, j);
      var k :| 0 <= k < |views[j].facts| && c == Cited(views[j].facts[k], views[j].admitted);
      assert MarkedAlike(p, asset, c);
      AlikeContext(p, q, asset, c);
    }
    ScanMeaning(s, cited);
    hide ContextFor;
    assert Uniform(s, cited);
  }

  lemma {:induction false} CitedFromView(spec: Spec, views: seq<View>, c: Cited)
    requires c in AllCited(spec, views)
    ensures exists i :: 0 <= i < |views| && c in CitedBy(spec, views[i])
    decreases |views|
  {
    hide CitedBy;
    if c in CitedBy(spec, views[|views| - 1]) {
    } else {
      CitedFromView(spec, views[..|views| - 1], c);
      var i :| 0 <= i < |views| - 1 && c in CitedBy(spec, views[..|views| - 1][i]);
      assert views[..|views| - 1][i] == views[i];
    }
  }

  // With every amount at a contributor and every active module consulted, the verdict is that of the amounts.
  lemma WitnessEvaluates(p: Params, q: Params, asset: Resource, worth: ModuleRef -> int, ms: seq<ModuleRef>, active: seq<ModuleRef>)
    requires Witnesses(p, asset, worth, ms) && q == p.(contributors := q.contributors)
    requires (forall m :: m in q.contributors ==> m in ms) && (forall m :: m in active ==> m in ms)
    requires forall m :: m !in q.contributors ==> worth(m) == 0
    ensures Evaluate(Spec(q, asset), Witness(p, asset, worth, ms), active).outcome
         == if SumOf(q.contributors, worth) <= p.limit then HOLDS else VIOLATED
  {
    hide SumAggregate, ModuleTotal, SumOf, CheckValuations, Pieces, Proper, Reading, ValidModule, ValidParams, Find, MatchingFacts;
    var views, s := Witness(p, asset, worth, ms), Spec(q, asset);
    WitnessSums(p, q, asset, worth, ms);
    WitnessCites(p, q, asset, worth, ms);
    forall i | 0 <= i < |views| ensures Contributor(s, views[i].moduleRef) || MatchingFacts(s, views[i].facts) == [] {
      assert ms[i] in ms;
      WitnessTotal(p, q, asset, worth, ms, ms[i]);
    }
    forall i | 0 <= i < |active| ensures Find(views, active[i]).Some? {
      assert active[i] in active;
      WitnessTotal(p, q, asset, worth, ms, active[i]);
    }
    assert CheckScope(s, views, active).None?;
  }

  // ---- Sums of two amounts ---------------------------------------------------------------------

  function Worth(x: ModuleRef, a: int, y: ModuleRef, b: int): ModuleRef -> int {
    m => if m == x then a else if m == y then b else 0
  }

  lemma TwoAmounts(ds: seq<ModuleRef>, f: ModuleRef -> int, x: ModuleRef, y: ModuleRef)
    requires DistinctRefs(ds) && x in ds && y in ds && x != y && forall m :: m != x && m != y ==> f(m) == 0
    ensures SumOf(ds, f) == f(x) + f(y)
  {
    var none, one := Worth(x, 0, y, 0), Worth(x, f(x), y, 0);
    SumZero(ds, none);
    SumRaised(ds, none, one, x, f(x));
    SumRaised(ds, one, f, y, f(y));
  }

  lemma OneAmount(ds: seq<ModuleRef>, f: ModuleRef -> int, x: ModuleRef)
    requires DistinctRefs(ds) && x in ds && forall m :: m != x ==> f(m) == 0
    ensures SumOf(ds, f) == f(x)
  {
    var none := Worth(x, 0, x, 0);
    SumZero(ds, none);
    SumRaised(ds, none, f, x, f(x));
  }

  lemma {:induction false} SumAtLeast(ms: seq<ModuleRef>, f: ModuleRef -> int, i: nat)
    requires i < |ms| && forall m :: m in ms ==> f(m) >= 0
    ensures SumOf(ms, f) >= f(ms[i])
    decreases |ms|
  {
    assert ms[|ms| - 1] in ms;
    assert forall m :: m in ms[..|ms| - 1] ==> m in ms;
    if i == |ms| - 1 {
      SumNonNegative(ms[..|ms| - 1], f);
    } else {
      SumAtLeast(ms[..|ms| - 1], f, i);
    }
  }

  lemma {:induction false} SumTwice(ms: seq<ModuleRef>, f: ModuleRef -> int, i: nat, j: nat)
    requires i < j < |ms| && forall m :: m in ms ==> f(m) >= 0
    ensures SumOf(ms, f) >= f(ms[i]) + f(ms[j])
    decreases |ms|
  {
    assert ms[|ms| - 1] in ms;
    assert forall m :: m in ms[..|ms| - 1] ==> m in ms;
    if j == |ms| - 1 {
      SumAtLeast(ms[..|ms| - 1], f, i);
    } else {
      SumTwice(ms[..|ms| - 1], f, i, j);
    }
  }

  // ---- Modules outside a list ------------------------------------------------------------------

  lemma {:induction false} Unused(used: set<int>, n: nat) returns (v: nat)
    requires |used| <= n
    ensures v <= n && v !in used
    decreases n
  {
    if n !in used {
      v := n;
    } else {
      v := Unused(used - {n as int}, n - 1);
    }
  }

  function VersionsOf(ms: seq<ModuleRef>): set<int> {
    if ms == [] then {} else VersionsOf(ms[..|ms| - 1]) + {ms[|ms| - 1].version}
  }

  lemma {:induction false} VersionsAre(ms: seq<ModuleRef>)
    ensures |VersionsOf(ms)| <= |ms| && forall m :: m in ms ==> m.version in VersionsOf(ms)
    decreases |ms|
  {
    if ms != [] {
      VersionsAre(ms[..|ms| - 1]);
      assert forall m :: m in ms <==> m in ms[..|ms| - 1] || m == ms[|ms| - 1];
    }
  }

  lemma Fresh(ms: seq<ModuleRef>) returns (y: ModuleRef)
    requires |ms| <= MAX_PARTICIPANTS
    ensures ValidModule(y) && y !in ms
  {
    VersionsAre(ms);
    var v := Unused(VersionsOf(ms), |ms|);
    y := ModuleRef("spare", "spare", v, ONES);
    assert y.digest[0] == 1;
  }

  // Further modules, all different, up to a given length.
  lemma {:induction false} Padded(ms: seq<ModuleRef>, n: nat) returns (zs: seq<ModuleRef>)
    requires DistinctRefs(ms) && |ms| <= n <= MAX_PARTICIPANTS && forall m :: m in ms ==> ValidModule(m)
    ensures |zs| == n && ms <= zs && DistinctRefs(zs) && forall m :: m in zs ==> ValidModule(m)
    decreases n - |ms|
  {
    hide ValidModule;
    if |ms| == n {
      zs := ms;
    } else {
      var y := Fresh(ms);
      zs := Padded(ms + [y], n);
    }
  }

  // ---- The comparator --------------------------------------------------------------------------

  // Parameters like these with different contributors have plain bytes.
  lemma PlainParams(p: Params, cs: seq<ModuleRef>) returns (bytes: Bytes, c: Params)
    requires ValidParams(p) && DistinctRefs(cs) && 1 <= |cs| <= MAX_AGGREGATE_CONTRIBUTORS && forall m :: m in cs ==> ValidModule(m)
    ensures DecodeParams(bytes) == Some(Codec.Decoded(c, |bytes|, 0)) && c == p.(contributors := c.contributors)
    ensures multiset(c.contributors) == multiset(cs) && DistinctRefs(c.contributors)
  {
    var q := p.(contributors := cs);
    WidestInteger();
    forall i | 0 <= i < |cs| ensures W.ModuleCodec().valid(cs[i]) {
      assert cs[i] in cs;
      ValidModuleIs(cs[i]);
    }
    assert ValidHead(q);
    hide W.ModuleCodec, DecodeParams, EncodeParams, Sort, ValidHead;
    bytes := EncodeParams(q);
    ParamsRoundTrip(q);
    c := q.(contributors := Sort(cs, W.ModuleCodec().write));
    SortKeepsDistinct(cs, W.ModuleCodec().write);
  }

  // A parent that repeats a contributor accepts a child it should not, whatever the asset: the child is plain, its
  // participants are proper, it holds, and the parent's own sum is over the limit.
  lemma RepeatBreaks(p: Params, asset: Resource) returns (child: Bytes, views: seq<View>)
    requires ValidParams(p) && !Orderable(p) && ScopedAsset(asset)
    ensures DecodeParams(child).Some? && DecodeParams(child).value.marks == 0 && Proper(views)
    ensures var c := DecodeParams(child).value.value;
            && Compare(p, c) == NO_WEAKER
            && Evaluate(Spec(c, asset), views, ModulesOf(views)).outcome == HOLDS
            && SumAggregate(Spec(p, asset), views).outcome == VIOLATED
  {
    var i, j :| 0 <= i < j < |p.contributors| && p.contributors[i] == p.contributors[j];
    if SignedKind(p.kind) {
      child, views := SignedRepeatBreaks(p, asset, i, j);
    } else {
      child, views := UnsignedRepeatBreaks(p, asset, i, j);
    }
  }

  // Unsigned with a positive limit: without the repetition the child holds at exactly the limit, while the parent
  // counts the same facts twice.
  lemma UnsignedRepeatBreaks(p: Params, asset: Resource, i: nat, j: nat) returns (child: Bytes, views: seq<View>)
    requires ValidParams(p) && Matchable(p.kind, p.unit) && !SignedKind(p.kind) && p.limit > 0 && ScopedAsset(asset)
    requires i < j < |p.contributors| && p.contributors[i] == p.contributors[j]
    ensures DecodeParams(child).Some? && DecodeParams(child).value.marks == 0 && Proper(views)
    ensures var c := DecodeParams(child).value.value;
            && Compare(p, c) == NO_WEAKER
            && Evaluate(Spec(c, asset), views, ModulesOf(views)).outcome == HOLDS
            && SumAggregate(Spec(p, asset), views).outcome == VIOLATED
  {
    hide DecodeParams, SumOf, Evaluate, SumAggregate, ValidModule, Proper, ModulesOf, ValidUnit;
    var x, cs := p.contributors[i], Dedup(p.contributors);
    DedupKeeps(p.contributors);
    var c;
    child, c := PlainParams(p, cs);
    SameMembers(c.contributors, cs);
    var worth := Worth(x, p.limit, x, 0);
    assert Witnesses(p, asset, worth, cs);
    views := Witness(p, asset, worth, cs);
    AllProper(p, asset, worth, cs);
    WitnessEvaluates(p, c, asset, worth, cs, cs);
    WitnessSums(p, p, asset, worth, cs);
    OneAmount(c.contributors, worth, x);
    SumTwice(p.contributors, worth, i, j);
    LimitsCompareExactly(p, c);
  }

  // Signed: the child trades the repetitions for new modules, one of which offsets what the parent counts.
  lemma SignedRepeatBreaks(p: Params, asset: Resource, i: nat, j: nat) returns (child: Bytes, views: seq<View>)
    requires ValidParams(p) && Matchable(p.kind, p.unit) && SignedKind(p.kind) && ScopedAsset(asset)
    requires i < j < |p.contributors| && p.contributors[i] == p.contributors[j]
    ensures DecodeParams(child).Some? && DecodeParams(child).value.marks == 0 && Proper(views)
    ensures var c := DecodeParams(child).value.value;
            && Compare(p, c) == NO_WEAKER
            && Evaluate(Spec(c, asset), views, ModulesOf(views)).outcome == HOLDS
            && SumAggregate(Spec(p, asset), views).outcome == VIOLATED
  {
    hide DecodeParams, SumOf, Evaluate, SumAggregate, ValidModule, Proper, ModulesOf, ValidUnit;
    var x, ds := p.contributors[i], Dedup(p.contributors);
    DedupKeeps(p.contributors);
    RepeatShortens(p.contributors, i, j);
    var cs := Padded(ds, |p.contributors|);
    var y := cs[|ds|];
    assert y !in ds by {
      forall k | 0 <= k < |ds| ensures ds[k] != y {
        assert ds[k] == cs[k];
      }
    }
    forall m | m in p.contributors ensures m in cs {
      var k :| 0 <= k < |ds| && ds[k] == m;
      assert cs[k] == m;
    }
    var c;
    child, c := PlainParams(p, cs);
    SameMembers(c.contributors, cs);
    assert |c.contributors| == |multiset(c.contributors)| == |multiset(cs)| == |cs|;
    var t := p.limit + 1;
    var worth := Worth(x, t, y, -t);
    assert Witnesses(p, asset, worth, cs);
    views := Witness(p, asset, worth, cs);
    AllProper(p, asset, worth, cs);
    WitnessEvaluates(p, c, asset, worth, cs, cs);
    WitnessSums(p, p, asset, worth, cs);
    TwoAmounts(c.contributors, worth, x, y);
    SumAtLeast(p.contributors, worth, i);
    LimitsCompareExactly(p, c);
  }

  lemma {:induction false} RepeatShortens(ms: seq<ModuleRef>, i: nat, j: nat)
    requires i < j < |ms| && ms[i] == ms[j]
    ensures |Dedup(ms)| < |ms|
    decreases |ms|
  {
    var front, last := ms[..|ms| - 1], ms[|ms| - 1];
    DedupKeeps(front);
    if j == |ms| - 1 {
      assert front[i] == last;
    } else {
      RepeatShortens(front, i, j);
    }
  }

  // "No weaker" is the truth for every accepted child and all participants.
  ghost predicate Sound(parent: Bytes, asset: Resource)
    requires DecodeParams(parent).Some?
  {
    forall child: Bytes, views: seq<View>, active: seq<ModuleRef> ::
      DecodeParams(child).Some? && Proper(views) ==>
        SoundFor(DecodeParams(parent).value.value, DecodeParams(child).value.value, asset, views, active)
  }

  // Over all bytes the decoder accepts, the comparator is sound for a parent exactly when its contributors are distinct,
  // or no quantity of its kind and unit names a canonical asset, or it is unsigned with a zero limit.
  lemma ComparatorSoundExactlyWhenOrderable(parent: Bytes, asset: Resource)
    requires DecodeParams(parent).Some? && ScopedAsset(asset)
    ensures Sound(parent, asset) <==> Orderable(DecodeParams(parent).value.value)
  {
    hide DecodeParams, ValidParams, Evaluate, SumAggregate, Compare, Orderable, Proper, ValidResource;
    var p := DecodeParams(parent).value.value;
    DecodedAreValid(parent);
    if Orderable(p) {
      forall child: Bytes, views, active | DecodeParams(child).Some? && Proper(views)
        ensures SoundFor(p, DecodeParams(child).value.value, asset, views, active)
      {
        DecodedAreValid(child);
        ProperIsValid(views);
        OrderableIsSoundFor(p, DecodeParams(child).value.value, asset, views, active);
      }
    } else {
      var child, views := RepeatBreaks(p, asset);
      assert !SoundFor(p, DecodeParams(child).value.value, asset, views, ModulesOf(views));
    }
  }

  // ---- The closed scope ------------------------------------------------------------------------

  // What a holding aggregate promises: every active module was consulted, and the exact total of all matching facts of
  // all participants, each once, is within the limit.
  ghost predicate ClosedFor(p: Params, asset: Resource, views: seq<View>, active: seq<ModuleRef>) {
    Evaluate(Spec(p, asset), views, active).outcome == HOLDS ==>
      && (forall i :: 0 <= i < |active| ==> active[i] in ModulesOf(views))
      && p.decimals <= MAX_DECIMALS && Fine(AllMatching(Spec(p, asset), views))
      && Exactly(AllMatching(Spec(p, asset), views)) <= LimitExactly(p)
  }

  ghost predicate Closed(p: Params, asset: Resource) {
    forall views: seq<View>, active: seq<ModuleRef> :: Proper(views) ==> ClosedFor(p, asset, views, active)
  }

  lemma {:induction false} CountBound(ms: seq<ModuleRef>, m: ModuleRef)
    ensures multiset(ms)[m] <= |ms|
    decreases |ms|
  {
    if ms != [] {
      var front, last := ms[..|ms| - 1], ms[|ms| - 1];
      assert ms == front + [last];
      CountBound(front, m);
    }
  }

  // Two contributors of which the first is named more often.
  lemma MoreOften(ms: seq<ModuleRef>) returns (x: ModuleRef, y: ModuleRef)
    requires !Even(ms)
    ensures x in ms && y in ms && x != y && multiset(ms)[x] > multiset(ms)[y] >= 1
  {
    var i, j :| 0 <= i < |ms| && 0 <= j < |ms| && multiset(ms)[ms[i]] != multiset(ms)[ms[j]];
    x, y := ms[i], ms[j];
    if multiset(ms)[x] < multiset(ms)[y] {
      x, y := y, x;
    }
    assert y in multiset(ms);
  }

  // Amounts that cancel as often as they are named, but not once each.
  lemma Unbalanced(cs: seq<ModuleRef>, ms: seq<ModuleRef>, x: ModuleRef, y: ModuleRef, t: int) returns (worth: ModuleRef -> int)
    requires DistinctRefs(ms) && (forall m :: m in cs ==> m in ms) && x in cs && y in cs && x != y
    requires multiset(cs)[x] > multiset(cs)[y] && t > 0 && |cs| <= MAX_AGGREGATE_CONTRIBUTORS
    ensures SumOf(cs, worth) == 0 && SumOf(ms, worth) >= t
    ensures forall m :: m !in cs ==> worth(m) == 0
    ensures forall m :: -12 * t <= worth(m) <= 12 * t
  {
    var a, b := multiset(cs)[x], multiset(cs)[y];
    worth := Worth(x, -(b * t), y, a * t);
    CountBound(cs, x);
    Offsets(a, b, t);
    SumByCount(cs, ms, worth);
    TwoAmounts(ms, Weighted(cs, worth), x, y);
    TwoAmounts(ms, worth, x, y);
  }

  lemma Offsets(a: nat, b: nat, t: int)
    requires 12 >= a > b && t > 0
    ensures a * -(b * t) + b * (a * t) == 0 && a * t - b * t >= t
    ensures 0 <= b * t <= 12 * t && 0 <= a * t <= 12 * t
  {
    MulMonotone(a, 12, t);
    MulMonotone(b, 12, t);
    MulMonotone(b + 1, a, t);
    MulMonotone(0, b, t);
    assert (b + 1) * t == b * t + t;
    MulAssoc(a, b, t);
    MulAssoc(b, a, t);
    assert a * b == b * a;
    var u := b * t;
    assert a * -u == -(a * u);
  }

  // Signed, with contributors named unequally often: whatever is pending, participants that hold and are over the limit.
  lemma UnevenBreaks(p: Params, asset: Resource, active: seq<ModuleRef>) returns (views: seq<View>)
    requires ValidParams(p) && !Counted(p) && ScopedAsset(asset)
    requires |active| <= MAX_PARTICIPANTS - MAX_AGGREGATE_CONTRIBUTORS && forall m :: m in active ==> ValidModule(m)
    ensures Proper(views) && forall i :: 0 <= i < |active| ==> active[i] in ModulesOf(views)
    ensures Evaluate(Spec(p, asset), views, active).outcome == HOLDS
    ensures Fine(AllMatching(Spec(p, asset), views)) && Exactly(AllMatching(Spec(p, asset), views)) > LimitExactly(p)
  {
    hide Evaluate, SumOf, ValidModule, Proper, ModuleTotal, SumAt, Even, ValidUnit;
    var cs := p.contributors;
    var ms := Dedup(cs + active);
    DedupKeeps(cs + active);
    var x, y := MoreOften(cs);
    var worth := Unbalanced(cs, ms, x, y, p.limit + 1);
    assert Witnesses(p, asset, worth, ms);
    views := Witness(p, asset, worth, ms);
    AllProper(p, asset, worth, ms);
    WitnessEvaluates(p, p, asset, worth, ms, active);
    WitnessExceeds(p, asset, worth, ms);
  }

  lemma WitnessExceeds(p: Params, asset: Resource, worth: ModuleRef -> int, ms: seq<ModuleRef>)
    requires Witnesses(p, asset, worth, ms) && SumOf(ms, worth) > p.limit
    ensures var views := Witness(p, asset, worth, ms);
            Fine(AllMatching(Spec(p, asset), views)) && Exactly(AllMatching(Spec(p, asset), views)) > LimitExactly(p)
  {
    hide SumOf, ModuleTotal, Proper, SumAt, WitnessView, Find, Witness, AllMatching, ModulesOf;
    var views, s, k := Witness(p, asset, worth, ms), Spec(p, asset), Pow10(MAX_DECIMALS - p.decimals);
    AllProper(p, asset, worth, ms);
    ProperIsValid(views);
    ViewsAreFine(views);
    AllMatchingTotal(s, views, |views|);
    assert views[..|views|] == views && ModulesOf(views)[..|views|] == ms;
    forall m | m in ms ensures Totals(s, views)(m) == k * worth(m) {
      WitnessTotal(p, p, asset, worth, ms, m);
    }
    SumScaled(ms, worth, Totals(s, views), k);
    CompareScaledUp(SumOf(ms, worth), p.limit, k);
  }

  // Over all bytes the decoder accepts, a holding aggregate bounds everything exactly when its kind is unsigned, or
  // no quantity of its kind and unit names a canonical asset, or every contributor is named equally often.
  lemma ClosedExactlyWhenCounted(bytes: Bytes, asset: Resource)
    requires DecodeParams(bytes).Some? && ScopedAsset(asset)
    ensures Closed(DecodeParams(bytes).value.value, asset) <==> Counted(DecodeParams(bytes).value.value)
  {
    hide DecodeParams, ValidParams, Evaluate, Counted, Proper, ValidResource, AllMatching, SumAt;
    var p := DecodeParams(bytes).value.value;
    DecodedAreValid(bytes);
    if Counted(p) {
      forall views, active | Proper(views) ensures ClosedFor(p, asset, views, active) {
        if Evaluate(Spec(p, asset), views, active).outcome == HOLDS {
          ProperIsValid(views);
          HoldsBoundsEverything(Spec(p, asset), views, active);
          DecimalsOf(p);
        }
      }
    } else {
      var views := UnevenBreaks(p, asset, []);
      assert !ClosedFor(p, asset, views, []);
    }
  }

  // Accepted bytes for which it fails: one contributor named twice and another once.
  lemma UnevenListDecodes(p: Params, x: ModuleRef, y: ModuleRef) returns (bytes: Bytes)
    requires ValidHead(p) && SignedKind(p.kind) && Matchable(p.kind, p.unit) && ValidModule(x) && ValidModule(y) && x != y
    ensures DecodeParams(bytes).Some? && !Counted(DecodeParams(bytes).value.value)
  {
    hide DecodeParams, ValidHead, ValidModule;
    var ms := [x, x, y];
    bytes := TwiceNamedDecodes(p, ms);
    var q := DecodeParams(bytes).value.value;
    var got := multiset(q.contributors);
    assert got[x] == 2 && got[y] == 1;
    assert x in got && y in got;
    var i :| 0 <= i < |q.contributors| && q.contributors[i] == x;
    var j :| 0 <= j < |q.contributors| && q.contributors[j] == y;
    assert got[q.contributors[i]] != got[q.contributors[j]];
  }
}
