// State requirements: tightening, admission and lifetimes (packages/control/src/admission.ts, pipeline.ts:447-466).
module StateAdmission {
  import opened Common
  import opened Core
  import opened Canonical

  // ---- Requirements ----------------------------------------------------------------------------

  datatype Ladder = Ladder(name: string, levels: seq<string>)

  function IndexOf(levels: seq<string>, level: string): int {
    if levels == [] then -1
    else if levels[0] == level then 0
    else
      var rest := IndexOf(levels[1..], level);
      if rest < 0 then -1 else rest + 1
  }

  // The position of a level on its declared ladder; -1 when the ladder or the level is not declared.
  function LevelIndex(ladders: seq<Ladder>, f: FinalityRef): int {
    if ladders == [] then -1
    else if ladders[0].name == f.ladder then IndexOf(ladders[0].levels, f.level)
    else LevelIndex(ladders[1..], f)
  }

  lemma {:induction false} IndexNames(levels: seq<string>, a: string, b: string)
    requires IndexOf(levels, a) == IndexOf(levels, b) >= 0
    ensures a == b
    decreases |levels|
  {
    if levels[0] != a && levels[0] != b {
      IndexNames(levels[1..], a, b);
    }
  }

  // Two levels of one ladder at the same position are the same level.
  lemma {:induction false} LevelNames(ladders: seq<Ladder>, a: FinalityRef, b: FinalityRef)
    requires a.ladder == b.ladder && LevelIndex(ladders, a) == LevelIndex(ladders, b) >= 0
    ensures a == b
    decreases |ladders|
  {
    if ladders[0].name == a.ladder {
      IndexNames(ladders[0].levels, a.level, b.level);
    } else {
      LevelNames(ladders[1..], a, b);
    }
  }

  function TrustRank(t: TrustClass): int {
    match t
    case AUTHORITATIVE => 2
    case VERIFIED => 1
    case ADVISORY => 0
    case UNTRUSTED => 0
  }

  predicate ValidFreshness(f: Freshness) {
    match f
    case AGE(maxAge) => 0 <= maxAge <= UINT32_MAX
    case BLOCKS(behind) => 0 <= behind <= UINT64_MAX
    case SEQUENCE => true
    case VERSION(pinned, maxAge) => |pinned| == 32 && 0 <= maxAge <= UINT32_MAX
  }

  predicate ValidRequirement(r: Requirement) {
    && ValidFreshness(r.freshness)
    && (r.minTrust.AUTHORITATIVE? || r.minTrust.VERIFIED?)
    && ValidIdentifier(r.minFinality.ladder) && ValidIdentifier(r.minFinality.level)
    && (r.atExecution.ENFORCED_BY_ARTIFACT? ==> ValidIdentifier(r.atExecution.artifactField))
    && (r.atExecution.BOUNDED_BY_FRESHNESS? ==> r.freshness.AGE? || r.freshness.VERSION?)
  }

  function TightenFreshness(a: Freshness, b: Freshness): Option<Freshness> {
    if a.AGE? && b.AGE? then Some(AGE(Min(a.maxAgeSeconds, b.maxAgeSeconds)))
    else if a.BLOCKS? && b.BLOCKS? then Some(BLOCKS(Min(a.maxBlocksBehind, b.maxBlocksBehind)))
    else if a.SEQUENCE? && b.SEQUENCE? then Some(SEQUENCE)
    else if a.VERSION? && b.VERSION? && a.pinned == b.pinned then Some(VERSION(a.pinned, Min(a.maxAge, b.maxAge)))
    else None
  }

  function TightenDependence(a: Dependence, b: Dependence): Option<Dependence> {
    if a == b then Some(a)
    else if a.NOT_REQUIRED? then Some(b)
    else if b.NOT_REQUIRED? then Some(a)
    else None
  }

  function TighterTrust(a: TrustClass, b: TrustClass): TrustClass {
    if TrustRank(a) >= TrustRank(b) then a else b
  }

  function HigherLevel(ladders: seq<Ladder>, a: FinalityRef, b: FinalityRef): FinalityRef {
    if LevelIndex(ladders, a) >= LevelIndex(ladders, b) then a else b
  }

  function TighterIssue(a: AtIssue, b: AtIssue): AtIssue {
    if a.RECHECK? || b.RECHECK? then RECHECK else WITHIN_POLICY
  }

  // The meet of two requirements, refused when some component has none.
  function Tighten(ladders: seq<Ladder>, a: Requirement, b: Requirement): Result<Requirement> {
    var freshness := TightenFreshness(a.freshness, b.freshness);
    var ia, ib := LevelIndex(ladders, a.minFinality), LevelIndex(ladders, b.minFinality);
    var dependence := TightenDependence(a.atExecution, b.atExecution);
    if freshness.None? then Refused("FRESHNESS_INCOMPARABLE")
    else if a.minFinality.ladder != b.minFinality.ladder then Refused("FINALITY_LADDER_INCOMPARABLE")
    else if ia < 0 || ib < 0 then Refused("FINALITY_LEVEL_UNDECLARED")
    else if dependence.None? then Refused("EXECUTION_DEPENDENCE_INCOMPARABLE")
    else
      var combined := Requirement(
        freshness.value,
        TighterTrust(a.minTrust, b.minTrust),
        HigherLevel(ladders, a.minFinality, b.minFinality),
        TighterIssue(a.atIssue, b.atIssue),
        dependence.value);
      if ValidRequirement(combined) then Ok(combined) else Refused("REQUIREMENT_INVALID")
  }

  // ---- Observations ----------------------------------------------------------------------------

  datatype Sequence = NoSequence | Block(value: int) | VenueSequence(value: int) | VersionSequence(value: int)

  datatype SourceConfig = SourceConfig(trustClass: TrustClass, kinds: set<(string, string)>)

  datatype Context = Context(
    evaluationTime: int,
    sources: map<string, SourceConfig>,
    blockHeads: map<string, int>,
    watermarks: map<(string, string, Resource), int>)

  datatype Observed = Observed(
    domain: string, stateKind: string, subject: Resource, sourceId: string, trustClass: TrustClass,
    observedAt: int, validUntil: Option<int>, sequence: Sequence, finality: FinalityRef, payloadDigest: Option<Bytes>)

  function AssessFreshness(o: Observed, f: Freshness, ctx: Context): Option<string> {
    var t := ctx.evaluationTime;
    match f
    case AGE(maxAge) => if t - o.observedAt > maxAge then Some("AGE_EXCEEDED") else None
    case BLOCKS(behind) =>
      if !o.sequence.Block? then Some("SEQUENCE_KIND_MISMATCH")
      else if o.sourceId !in ctx.blockHeads then Some("BLOCK_HEAD_UNKNOWN")
      else if o.sequence.value > ctx.blockHeads[o.sourceId] then Some("BLOCK_AHEAD_OF_HEAD")
      else if ctx.blockHeads[o.sourceId] - o.sequence.value > behind then Some("BLOCKS_BEHIND_EXCEEDED")
      else None
    case SEQUENCE =>
      var key := (o.sourceId, o.stateKind, o.subject);
      if o.sequence.NoSequence? then Some("SEQUENCE_KIND_MISMATCH")
      else if key !in ctx.watermarks then Some("WATERMARK_UNKNOWN")
      else if o.sequence.value < ctx.watermarks[key] then Some("BEHIND_WATERMARK")
      else None
    case VERSION(pinned, maxAge) =>
      if o.payloadDigest.Some? && o.payloadDigest.value != pinned then Some("PINNED_VERSION_MISMATCH")
      else if t - o.observedAt > maxAge then Some("AGE_EXCEEDED")
      else None
  }

  // Why an observation is not admissible; None when it is.
  function Assess(o: Observed, r: Requirement, sources: seq<string>, ladders: seq<Ladder>, ctx: Context): Option<string> {
    var t := ctx.evaluationTime;
    if o.sourceId !in ctx.sources then Some("SOURCE_NOT_CONFIGURED")
    else if (o.domain, o.stateKind) !in ctx.sources[o.sourceId].kinds then Some("SOURCE_NOT_CONFIGURED_FOR_KIND")
    else if o.trustClass != ctx.sources[o.sourceId].trustClass then Some("TRUST_CLASS_MISMATCH")
    else if o.sourceId !in sources then Some("SOURCE_NOT_ADMITTED")
    else if TrustRank(o.trustClass) == 0 || TrustRank(o.trustClass) < TrustRank(r.minTrust) then Some("TRUST_INSUFFICIENT")
    else if o.observedAt > t then Some("OBSERVED_IN_FUTURE")
    else if o.validUntil.Some? && t >= o.validUntil.value then Some("SOURCE_VALIDITY_ENDED")
    else if AssessFreshness(o, r.freshness, ctx).Some? then AssessFreshness(o, r.freshness, ctx)
    else if o.finality.ladder != r.minFinality.ladder then Some("FINALITY_LADDER_MISMATCH")
    else if LevelIndex(ladders, o.finality) < 0 then Some("FINALITY_LEVEL_UNDECLARED")
    else if LevelIndex(ladders, o.finality) < LevelIndex(ladders, r.minFinality) then Some("FINALITY_BELOW_REQUIRED")
    else None
  }

  predicate Admits(o: Observed, r: Requirement, sources: seq<string>, ladders: seq<Ladder>, ctx: Context) {
    Assess(o, r, sources, ladders, ctx).None?
  }

  // ---- Tightening agrees with admission --------------------------------------------------------

  // The keep-order intersection of two source lists.
  function Intersect(xs: seq<string>, ys: seq<string>): seq<string> {
    if xs == [] then []
    else if xs[0] in ys then [xs[0]] + Intersect(xs[1..], ys)
    else Intersect(xs[1..], ys)
  }

  lemma {:induction false} IntersectMembers(xs: seq<string>, ys: seq<string>, s: string)
    ensures s in Intersect(xs, ys) <==> s in xs && s in ys
    decreases |xs|
  {
    if xs != [] {
      IntersectMembers(xs[1..], ys, s);
      assert xs == [xs[0]] + xs[1..];
    }
  }

  // An observation passes the combined requirement and the common sources exactly when it passes each alone.
  lemma TightenAgrees(ladders: seq<Ladder>, a: Requirement, b: Requirement, xs: seq<string>, ys: seq<string>, o: Observed, ctx: Context)
    requires Tighten(ladders, a, b).Ok?
    ensures Admits(o, Tighten(ladders, a, b).value, Intersect(xs, ys), ladders, ctx)
       <==> Admits(o, a, xs, ladders, ctx) && Admits(o, b, ys, ladders, ctx)
  {
    IntersectMembers(xs, ys, o.sourceId);
  }

  // The closing re-validation never refuses what two valid requirements combine to.
  lemma TightenStaysValid(ladders: seq<Ladder>, a: Requirement, b: Requirement)
    requires ValidRequirement(a) && ValidRequirement(b)
    ensures Tighten(ladders, a, b) != Refused("REQUIREMENT_INVALID")
    ensures Tighten(ladders, a, b).Ok? <==>
              && TightenFreshness(a.freshness, b.freshness).Some?
              && TightenDependence(a.atExecution, b.atExecution).Some?
              && a.minFinality.ladder == b.minFinality.ladder
              && LevelIndex(ladders, a.minFinality) >= 0 && LevelIndex(ladders, b.minFinality) >= 0
    ensures Tighten(ladders, a, b).Ok? ==> ValidRequirement(Tighten(ladders, a, b).value)
  {
  }

  // Success and result agree; only the reason of a refusal may differ.
  predicate SameOutcome<T(==)>(x: Result<T>, y: Result<T>) {
    x.Ok? == y.Ok? && (x.Ok? ==> x.value == y.value)
  }

  lemma TightenCommutes(ladders: seq<Ladder>, a: Requirement, b: Requirement)
    requires ValidRequirement(a) && ValidRequirement(b)
    ensures SameOutcome(Tighten(ladders, a, b), Tighten(ladders, b, a))
  {
    TightenStaysValid(ladders, a, b);
    TightenStaysValid(ladders, b, a);
    if Tighten(ladders, a, b).Ok? && LevelIndex(ladders, a.minFinality) == LevelIndex(ladders, b.minFinality) {
      LevelNames(ladders, a.minFinality, b.minFinality);
    }
  }

  function Then(ladders: seq<Ladder>, x: Result<Requirement>, r: Requirement): Result<Requirement> {
    if x.Ok? then Tighten(ladders, x.value, r) else x
  }

  function ThenFreshness(x: Option<Freshness>, f: Freshness): Option<Freshness> {
    if x.Some? then TightenFreshness(x.value, f) else None
  }

  function ThenDependence(x: Option<Dependence>, d: Dependence): Option<Dependence> {
    if x.Some? then TightenDependence(x.value, d) else None
  }

  lemma PartsAssociate(a: Requirement, b: Requirement, c: Requirement)
    ensures ThenFreshness(TightenFreshness(a.freshness, b.freshness), c.freshness)
         == (if TightenFreshness(b.freshness, c.freshness).Some?
             then TightenFreshness(a.freshness, TightenFreshness(b.freshness, c.freshness).value) else None)
    ensures ThenDependence(TightenDependence(a.atExecution, b.atExecution), c.atExecution)
         == (if TightenDependence(b.atExecution, c.atExecution).Some?
             then TightenDependence(a.atExecution, TightenDependence(b.atExecution, c.atExecution).value) else None)
    ensures TighterTrust(TighterTrust(a.minTrust, b.minTrust), c.minTrust) == TighterTrust(a.minTrust, TighterTrust(b.minTrust, c.minTrust))
    ensures TighterIssue(TighterIssue(a.atIssue, b.atIssue), c.atIssue) == TighterIssue(a.atIssue, TighterIssue(b.atIssue, c.atIssue))
  {
  }

  lemma LevelsAssociate(ladders: seq<Ladder>, a: FinalityRef, b: FinalityRef, c: FinalityRef)
    ensures HigherLevel(ladders, HigherLevel(ladders, a, b), c) == HigherLevel(ladders, a, HigherLevel(ladders, b, c))
  {
    hide LevelIndex;
  }

  predicate Combinable(ladders: seq<Ladder>, a: Requirement, b: Requirement) {
    && TightenFreshness(a.freshness, b.freshness).Some?
    && TightenDependence(a.atExecution, b.atExecution).Some?
    && a.minFinality.ladder == b.minFinality.ladder
    && LevelIndex(ladders, a.minFinality) >= 0 && LevelIndex(ladders, b.minFinality) >= 0
  }

  function Combined(ladders: seq<Ladder>, a: Requirement, b: Requirement): Requirement
    requires Combinable(ladders, a, b)
  {
    Requirement(TightenFreshness(a.freshness, b.freshness).value, TighterTrust(a.minTrust, b.minTrust),
                HigherLevel(ladders, a.minFinality, b.minFinality), TighterIssue(a.atIssue, b.atIssue),
                TightenDependence(a.atExecution, b.atExecution).value)
  }

  // On valid requirements tightening is the componentwise combination, defined where every component is.
  lemma TightenIsCombined(ladders: seq<Ladder>, a: Requirement, b: Requirement)
    requires ValidRequirement(a) && ValidRequirement(b)
    ensures Tighten(ladders, a, b).Ok? <==> Combinable(ladders, a, b)
    ensures Combinable(ladders, a, b) ==> Tighten(ladders, a, b) == Ok(Combined(ladders, a, b)) && ValidRequirement(Combined(ladders, a, b))
  {
    TightenStaysValid(ladders, a, b);
  }

  lemma TightenAssociates(ladders: seq<Ladder>, a: Requirement, b: Requirement, c: Requirement)
    requires ValidRequirement(a) && ValidRequirement(b) && ValidRequirement(c)
    ensures SameOutcome(Then(ladders, Tighten(ladders, a, b), c),
                        if Tighten(ladders, b, c).Ok? then Tighten(ladders, a, Tighten(ladders, b, c).value) else Tighten(ladders, b, c))
  {
    hide Tighten, TightenFreshness, TightenDependence, TighterTrust, TighterIssue, LevelIndex, ValidRequirement;
    PartsAssociate(a, b, c);
    LevelsAssociate(ladders, a.minFinality, b.minFinality, c.minFinality);
    TightenIsCombined(ladders, a, b);
    TightenIsCombined(ladders, b, c);
    if Combinable(ladders, a, b) {
      TightenIsCombined(ladders, Combined(ladders, a, b), c);
    }
    if Combinable(ladders, b, c) {
      TightenIsCombined(ladders, a, Combined(ladders, b, c));
    }
  }

  // Idempotent exactly on valid requirements whose level is declared on the ladder.
  lemma TightenIdempotent(ladders: seq<Ladder>, a: Requirement)
    ensures Tighten(ladders, a, a) == Ok(a) <==> ValidRequirement(a) && LevelIndex(ladders, a.minFinality) >= 0
  {
  }

  // ---- Folding policies into a need ------------------------------------------------------------

  function TightenAll(ladders: seq<Ladder>, x: Result<Requirement>, rs: seq<Requirement>): Result<Requirement>
    decreases |rs|
  {
    if rs == [] then x else TightenAll(ladders, Then(ladders, x, rs[0]), rs[1..])
  }

  lemma {:induction false} TightenAllRefused(ladders: seq<Ladder>, x: Result<Requirement>, rs: seq<Requirement>)
    requires x.Refused?
    ensures TightenAll(ladders, x, rs) == x
    decreases |rs|
  {
    if rs != [] {
      TightenAllRefused(ladders, x, rs[1..]);
    }
  }

  // A fold over at least one requirement succeeds only when every level is declared, and all on one ladder.
  lemma {:induction false} FoldNeedsDeclaredLevels(ladders: seq<Ladder>, x: Requirement, rs: seq<Requirement>)
    requires rs != [] && TightenAll(ladders, Ok(x), rs).Ok?
    ensures LevelIndex(ladders, x.minFinality) >= 0
    ensures forall i :: 0 <= i < |rs| ==>
              LevelIndex(ladders, rs[i].minFinality) >= 0 && rs[i].minFinality.ladder == x.minFinality.ladder
    decreases |rs|
  {
    hide LevelIndex, ValidRequirement;
    var rest, next := rs[1..], Tighten(ladders, x, rs[0]);
    if next.Refused? {
      TightenAllRefused(ladders, next, rest);
    } else if rest != [] {
      FoldNeedsDeclaredLevels(ladders, next.value, rest);
      forall i | 0 < i < |rs|
        ensures LevelIndex(ladders, rs[i].minFinality) >= 0 && rs[i].minFinality.ladder == x.minFinality.ladder
      {
        assert rs[i] == rest[i - 1];
      }
    }
  }

  lemma {:induction false} TightenAllSame(ladders: seq<Ladder>, x: Result<Requirement>, y: Result<Requirement>, rs: seq<Requirement>)
    requires SameOutcome(x, y)
    ensures SameOutcome(TightenAll(ladders, x, rs), TightenAll(ladders, y, rs))
  {
    if x.Refused? {
      TightenAllRefused(ladders, x, rs);
      TightenAllRefused(ladders, y, rs);
    }
  }

  // Any two requirements may be folded in either order.
  lemma ThenSwaps(ladders: seq<Ladder>, x: Result<Requirement>, a: Requirement, b: Requirement)
    requires x.Ok? ==> ValidRequirement(x.value)
    requires ValidRequirement(a) && ValidRequirement(b)
    ensures SameOutcome(Then(ladders, Then(ladders, x, a), b), Then(ladders, Then(ladders, x, b), a))
  {
    if x.Ok? {
      TightenAssociates(ladders, x.value, a, b);
      TightenAssociates(ladders, x.value, b, a);
      TightenCommutes(ladders, a, b);
    }
  }

  predicate AllValid(rs: seq<Requirement>) {
    forall i :: 0 <= i < |rs| ==> ValidRequirement(rs[i])
  }

  lemma {:induction false} FoldFrontable(ladders: seq<Ladder>, x: Result<Requirement>, rs: seq<Requirement>, k: nat)
    requires x.Ok? ==> ValidRequirement(x.value)
    requires AllValid(rs) && k < |rs|
    ensures SameOutcome(TightenAll(ladders, x, rs), TightenAll(ladders, Then(ladders, x, rs[k]), rs[..k] + rs[k + 1..]))
    decreases |rs|
  {
    if k == 0 {
      assert rs[..0] + rs[1..] == rs[1..];
    } else {
      var rest := rs[1..];
      assert rest[k - 1] == rs[k];
      ThenValid(ladders, x, rs[0]);
      FoldFrontable(ladders, Then(ladders, x, rs[0]), rest, k - 1);
      var moved := rs[..k] + rs[k + 1..];
      assert moved[0] == rs[0] && moved[1..] == rest[..k - 1] + rest[k..];
      ThenSwaps(ladders, x, rs[0], rs[k]);
      TightenAllSame(ladders, Then(ladders, Then(ladders, x, rs[0]), rs[k]), Then(ladders, Then(ladders, x, rs[k]), rs[0]), moved[1..]);
    }
  }

  lemma ThenValid(ladders: seq<Ladder>, x: Result<Requirement>, r: Requirement)
    requires (x.Ok? ==> ValidRequirement(x.value)) && ValidRequirement(r)
    ensures Then(ladders, x, r).Ok? ==> ValidRequirement(Then(ladders, x, r).value)
  {
  }

  lemma TakeOut<T>(qs: seq<T>, x: T) returns (k: nat)
    requires x in multiset(qs)
    ensures k < |qs| && qs[k] == x && multiset(qs[..k] + qs[k + 1..]) == multiset(qs) - multiset{x}
  {
    k :| 0 <= k < |qs| && qs[k] == x;
    assert qs == qs[..k] + [qs[k]] + qs[k + 1..];
  }

  // The order in which requirements are folded does not matter.
  lemma {:induction false} FoldIgnoresOrder(ladders: seq<Ladder>, x: Result<Requirement>, rs: seq<Requirement>, qs: seq<Requirement>)
    requires x.Ok? ==> ValidRequirement(x.value)
    requires AllValid(rs) && AllValid(qs) && multiset(rs) == multiset(qs)
    ensures SameOutcome(TightenAll(ladders, x, rs), TightenAll(ladders, x, qs))
    decreases |rs|
  {
    hide ValidRequirement, Tighten;
    assert |multiset(rs)| == |rs| && |multiset(qs)| == |qs|;
    if rs != [] {
      assert rs[0] in multiset(rs);
      var k := TakeOut(qs, rs[0]);
      var rest := qs[..k] + qs[k + 1..];
      assert rs == [rs[0]] + rs[1..];
      assert multiset(rs[1..]) == multiset(rs) - multiset{rs[0]};
      FoldFrontable(ladders, x, qs, k);
      ThenValid(ladders, x, rs[0]);
      FoldIgnoresOrder(ladders, Then(ladders, x, rs[0]), rs[1..], rest);
    }
  }

  // A folded requirement admits exactly what every one of its parts admits.
  lemma {:induction false} FoldAgrees(ladders: seq<Ladder>, a: Requirement, rs: seq<Requirement>, sources: seq<string>, o: Observed, ctx: Context)
    requires TightenAll(ladders, Ok(a), rs).Ok?
    ensures Admits(o, TightenAll(ladders, Ok(a), rs).value, sources, ladders, ctx)
       <==> Admits(o, a, sources, ladders, ctx) && forall i :: 0 <= i < |rs| ==> Admits(o, rs[i], sources, ladders, ctx)
    decreases |rs|
  {
    if rs != [] {
      if Tighten(ladders, a, rs[0]).Refused? {
        TightenAllRefused(ladders, Tighten(ladders, a, rs[0]), rs[1..]);
      }
      var b := Tighten(ladders, a, rs[0]).value;
      FoldAgrees(ladders, b, rs[1..], sources, o, ctx);
      TightenSameSources(ladders, a, rs[0], sources, o, ctx);
      assert forall i :: 0 <= i < |rs| ==> rs[i] == if i == 0 then rs[0] else rs[1..][i - 1];
      if forall i :: 0 <= i < |rs| ==> Admits(o, rs[i], sources, ladders, ctx) {
        forall i | 0 <= i < |rs[1..]| ensures Admits(o, rs[1..][i], sources, ladders, ctx) {
          assert rs[1..][i] == rs[i + 1];
        }
      }
    }
  }

  lemma TightenSameSources(ladders: seq<Ladder>, a: Requirement, b: Requirement, sources: seq<string>, o: Observed, ctx: Context)
    requires Tighten(ladders, a, b).Ok?
    ensures Admits(o, Tighten(ladders, a, b).value, sources, ladders, ctx)
       <==> Admits(o, a, sources, ladders, ctx) && Admits(o, b, sources, ladders, ctx)
  {
    TightenAgrees(ladders, a, b, sources, sources, o, ctx);
    IntersectMembers(sources, sources, o.sourceId);
  }
}
