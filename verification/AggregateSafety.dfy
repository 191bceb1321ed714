// When the aggregate comparator's "no weaker" is the truth, and what a holding aggregate means.
module AggregateSafety {
  import opened Common
  import opened Core
  import opened Decimals
  import opened StateAdmission
  import opened StateBindings
  import opened Aggregate

  // ---- One valuation context, read off the facts -----------------------------------------------

  predicate Uniform(spec: Spec, cited: seq<Cited>) {
    && (forall i :: 0 <= i < |cited| ==> ContextOf(spec, cited[i].fact, cited[i].admitted).Ok?)
    && (forall i, j :: 0 <= i < |cited| && 0 <= j < |cited| ==> Agree(spec, cited[i], cited[j]))
  }

  predicate Agree(spec: Spec, a: Cited, b: Cited) {
    var x, y := ContextOf(spec, a.fact, a.admitted), ContextOf(spec, b.fact, b.admitted);
    x.Ok? && y.Ok? && x.value.Some? && y.value.Some? ==> x.value == y.value
  }

  predicate Marked(spec: Spec, c: Cited) {
    var x := ContextOf(spec, c.fact, c.admitted);
    x.Ok? && x.value.Some?
  }

  predicate SomeMarked(spec: Spec, cited: seq<Cited>) {
    exists i :: 0 <= i < |cited| && Marked(spec, cited[i])
  }

  predicate SomeUnmarked(spec: Spec, cited: seq<Cited>) {
    exists i :: 0 <= i < |cited| && !Marked(spec, cited[i])
  }

  // What the scan's counters and its key say about the facts scanned.
  ghost predicate Scanned(spec: Spec, cited: seq<Cited>, s: Scan) {
    && (s.marked > 0 <==> SomeMarked(spec, cited))
    && (s.unmarked > 0 <==> SomeUnmarked(spec, cited))
    && (s.context.Some? <==> s.marked > 0)
    && (forall i :: 0 <= i < |cited| && Marked(spec, cited[i]) ==> ContextOf(spec, cited[i].fact, cited[i].admitted) == Ok(s.context))
  }

  lemma {:induction false} ScanMeaning(spec: Spec, cited: seq<Cited>)
    ensures ScanAll(spec, cited).Ok? <==> Uniform(spec, cited)
    ensures ScanAll(spec, cited).Ok? ==> Scanned(spec, cited, ScanAll(spec, cited).value)
    decreases |cited|
  {
    hide ContextOf;
    if cited != [] {
      var before, c := cited[..|cited| - 1], cited[|cited| - 1];
      ScanMeaning(spec, before);
      assert forall i :: 0 <= i < |before| ==> before[i] == cited[i];
      if Uniform(spec, cited) {
        assert Uniform(spec, before) by {
          forall i, j | 0 <= i < |before| && 0 <= j < |before| ensures Agree(spec, before[i], before[j]) {
            assert Agree(spec, cited[i], cited[j]);
          }
        }
        ScanNextOk(spec, cited);
      } else if ScanAll(spec, cited).Ok? {
        ScanNextUniform(spec, cited);
      }
      if ScanAll(spec, cited).Ok? {
        ScanNextMeaning(spec, cited);
      }
    }
  }

  lemma ScanNextOk(spec: Spec, cited: seq<Cited>)
    requires cited != [] && Uniform(spec, cited) && ScanAll(spec, cited[..|cited| - 1]).Ok?
    requires Scanned(spec, cited[..|cited| - 1], ScanAll(spec, cited[..|cited| - 1]).value)
    ensures ScanAll(spec, cited).Ok?
  {
    hide ContextOf;
    var before, c := cited[..|cited| - 1], cited[|cited| - 1];
    var s := ScanAll(spec, before).value;
    if s.context.Some? && Marked(spec, c) {
      var i :| 0 <= i < |before| && Marked(spec, before[i]);
      assert Agree(spec, cited[i], cited[|cited| - 1]);
    }
  }

  // One step of the scan: what it counts, and that a marked fact agrees with the key so far.
  lemma ScanStep(spec: Spec, s: Scan, c: Cited, t: Scan)
    requires ScanOne(spec, s, c) == Ok(t)
    ensures ContextOf(spec, c.fact, c.admitted).Ok?
    ensures if Marked(spec, c)
            then t.marked == s.marked + 1 && t.unmarked == s.unmarked && ContextOf(spec, c.fact, c.admitted) == Ok(t.context)
                 && t.context.Some? && (s.context.Some? ==> s.context == t.context)
            else t == s.(unmarked := s.unmarked + 1)
  {
    hide ContextOf;
  }

  lemma Prefixed(spec: Spec, cited: seq<Cited>)
    requires cited != []
    ensures var before, c := cited[..|cited| - 1], cited[|cited| - 1];
            && (SomeMarked(spec, cited) <==> SomeMarked(spec, before) || Marked(spec, c))
            && (SomeUnmarked(spec, cited) <==> SomeUnmarked(spec, before) || !Marked(spec, c))
  {
    hide ContextOf, Marked;
    var before := cited[..|cited| - 1];
    if SomeMarked(spec, before) {
      var i :| 0 <= i < |before| && Marked(spec, before[i]);
      assert Marked(spec, cited[i]);
    }
    if SomeUnmarked(spec, before) {
      var i :| 0 <= i < |before| && !Marked(spec, before[i]);
      assert !Marked(spec, cited[i]);
    }
    if SomeMarked(spec, cited) {
      var i :| 0 <= i < |cited| && Marked(spec, cited[i]);
      assert i < |before| ==> Marked(spec, before[i]);
    }
    if SomeUnmarked(spec, cited) {
      var i :| 0 <= i < |cited| && !Marked(spec, cited[i]);
      assert i < |before| ==> !Marked(spec, before[i]);
    }
  }

  lemma ScanNextMeaning(spec: Spec, cited: seq<Cited>)
    requires cited != [] && ScanAll(spec, cited).Ok?
    requires Scanned(spec, cited[..|cited| - 1], ScanAll(spec, cited[..|cited| - 1]).value)
    ensures Scanned(spec, cited, ScanAll(spec, cited).value)
  {
    hide ContextOf, ScanOne, Marked, SomeMarked, SomeUnmarked;
    var before, c := cited[..|cited| - 1], cited[|cited| - 1];
    var s, t := ScanAll(spec, before).value, ScanAll(spec, cited).value;
    ScanStep(spec, s, c, t);
    Prefixed(spec, cited);
    forall i | 0 <= i < |cited| && Marked(spec, cited[i]) ensures ContextOf(spec, cited[i].fact, cited[i].admitted) == Ok(t.context) {
      if i < |before| {
        assert before[i] == cited[i];
        SomeMarkedAt(spec, before, i);
      }
    }
  }

  lemma SomeMarkedAt(spec: Spec, cited: seq<Cited>, i: nat)
    requires i < |cited| && Marked(spec, cited[i])
    ensures SomeMarked(spec, cited)
  {
  }

  lemma ScanNextUniform(spec: Spec, cited: seq<Cited>)
    requires cited != [] && ScanAll(spec, cited).Ok? && Uniform(spec, cited[..|cited| - 1])
    requires Scanned(spec, cited[..|cited| - 1], ScanAll(spec, cited[..|cited| - 1]).value)
    ensures Uniform(spec, cited)
  {
    hide ContextOf, ScanOne, Scanned, Uniform;
    ScanNextMeaning(spec, cited);
    ScannedAgree(spec, cited, ScanAll(spec, cited).value);
    ScanStep(spec, ScanAll(spec, cited[..|cited| - 1]).value, cited[|cited| - 1], ScanAll(spec, cited).value);
    hide ScanAll;
    AllHaveContexts(spec, cited);
  }

  lemma AllHaveContexts(spec: Spec, cited: seq<Cited>)
    requires cited != [] && Uniform(spec, cited[..|cited| - 1])
    requires ContextOf(spec, cited[|cited| - 1].fact, cited[|cited| - 1].admitted).Ok?
    requires forall i, j :: 0 <= i < |cited| && 0 <= j < |cited| ==> Agree(spec, cited[i], cited[j])
    ensures Uniform(spec, cited)
  {
    hide ContextOf, Agree;
    var before := cited[..|cited| - 1];
    forall i | 0 <= i < |cited| ensures ContextOf(spec, cited[i].fact, cited[i].admitted).Ok? {
      assert i < |before| ==> before[i] == cited[i];
    }
  }

  lemma ScannedAgree(spec: Spec, cited: seq<Cited>, t: Scan)
    requires Scanned(spec, cited, t)
    ensures forall i, j :: 0 <= i < |cited| && 0 <= j < |cited| ==> Agree(spec, cited[i], cited[j])
  {
    hide ContextOf;
    forall i, j | 0 <= i < |cited| && 0 <= j < |cited| ensures Agree(spec, cited[i], cited[j]) {
      if Marked(spec, cited[i]) && Marked(spec, cited[j]) {
        assert ContextOf(spec, cited[i].fact, cited[i].admitted) == ContextOf(spec, cited[j].fact, cited[j].admitted);
      }
    }
  }

  // Some fact among `ys` is valued in the same context as `x`.
  ghost predicate Echoed(s: Spec, t: Spec, x: Cited, ys: seq<Cited>) {
    exists k :: 0 <= k < |ys| && ContextOf(s, x.fact, x.admitted) == ContextOf(t, ys[k].fact, ys[k].admitted)
  }

  ghost predicate AllEchoed(s: Spec, t: Spec, xs: seq<Cited>, ys: seq<Cited>) {
    forall i :: 0 <= i < |xs| ==> Echoed(s, t, xs[i], ys)
  }

  // Facts whose contexts all occur among others cannot fail a check those pass.
  lemma ValuationsShrink(s: Spec, t: Spec, xs: seq<Cited>, ys: seq<Cited>)
    requires AllEchoed(s, t, xs, ys)
    requires ScanAll(t, ys).Ok? && !(SomeMarked(t, ys) && SomeUnmarked(t, ys))
    ensures ScanAll(s, xs).Ok? && !(SomeMarked(s, xs) && SomeUnmarked(s, xs))
  {
    ScanMeaning(t, ys);
    ScanMeaning(s, xs);
    hide ContextOf;
    forall i | 0 <= i < |xs| ensures ContextOf(s, xs[i].fact, xs[i].admitted).Ok? {
      assert Echoed(s, t, xs[i], ys);
    }
    forall i, j | 0 <= i < |xs| && 0 <= j < |xs| ensures Agree(s, xs[i], xs[j]) {
      assert Echoed(s, t, xs[i], ys) && Echoed(s, t, xs[j], ys);
      var k :| 0 <= k < |ys| && ContextOf(s, xs[i].fact, xs[i].admitted) == ContextOf(t, ys[k].fact, ys[k].admitted);
      var l :| 0 <= l < |ys| && ContextOf(s, xs[j].fact, xs[j].admitted) == ContextOf(t, ys[l].fact, ys[l].admitted);
      assert Agree(t, ys[k], ys[l]);
    }
    if SomeMarked(s, xs) {
      var i :| 0 <= i < |xs| && Marked(s, xs[i]);
      assert Echoed(s, t, xs[i], ys);
      var k :| 0 <= k < |ys| && ContextOf(s, xs[i].fact, xs[i].admitted) == ContextOf(t, ys[k].fact, ys[k].admitted);
      assert Marked(t, ys[k]);
    }
    if SomeUnmarked(s, xs) {
      var i :| 0 <= i < |xs| && !Marked(s, xs[i]);
      assert Echoed(s, t, xs[i], ys);
      var k :| 0 <= k < |ys| && ContextOf(s, xs[i].fact, xs[i].admitted) == ContextOf(t, ys[k].fact, ys[k].admitted);
      assert !Marked(t, ys[k]);
    }
  }

  lemma EchoedWithin(s: Spec, t: Spec, xs: seq<Cited>, ys: seq<Cited>)
    requires s.asset == t.asset && forall x :: x in xs ==> x in ys
    ensures AllEchoed(s, t, xs, ys)
  {
    forall c: Cited ensures ContextOf(s, c.fact, c.admitted) == ContextOf(t, c.fact, c.admitted) {
    }
    hide ContextOf;
    forall i | 0 <= i < |xs| ensures Echoed(s, t, xs[i], ys) {
      assert xs[i] in ys;
      var k :| 0 <= k < |ys| && ys[k] == xs[i];
    }
  }

  lemma {:induction false} CitedShrink(s: Spec, t: Spec, views: seq<View>)
    requires s.params.kind == t.params.kind && s.params.unit == t.params.unit && s.asset == t.asset
    requires forall m :: m in s.params.contributors ==> m in t.params.contributors
    ensures forall x :: x in AllCited(s, views) ==> x in AllCited(t, views)
    decreases |views|
  {
    if views != [] {
      CitedShrink(s, t, views[..|views| - 1]);
      MatchingSame(s, t, views[|views| - 1].facts);
      assert CitedBy(s, views[|views| - 1]) == [] || CitedBy(s, views[|views| - 1]) == CitedBy(t, views[|views| - 1]);
    }
  }

  // ---- Soundness -------------------------------------------------------------------------------

  // What "no weaker" promises for one child and one set of participants.
  ghost predicate SoundFor(p: Params, c: Params, asset: Resource, views: seq<View>, active: seq<ModuleRef>) {
    Compare(p, c) == NO_WEAKER && Evaluate(Spec(c, asset), views, active).outcome == HOLDS ==>
      && SumAggregate(Spec(p, asset), views).outcome == HOLDS
      && var e := Evaluate(Spec(p, asset), views, active);
         e.outcome == HOLDS || (e.outcome == UNKNOWN && e.reason == "UNDECLARED_CONTRIBUTOR")
  }

  lemma HoldingParts(spec: Spec, views: seq<View>, active: seq<ModuleRef>)
    requires Evaluate(spec, views, active).outcome == HOLDS
    ensures CheckScope(spec, views, active).None? && CheckValuations(spec, views).None? && SumAggregate(spec, views).outcome == HOLDS
    ensures forall i :: 0 <= i < |spec.params.contributors| ==> Find(views, spec.params.contributors[i]).Some?
    ensures forall i :: 0 <= i < |active| ==> Find(views, active[i]).Some?
    ensures forall i :: 0 <= i < |views| ==> Contributor(spec, views[i].moduleRef) || MatchingFacts(spec, views[i].facts) == []
    ensures ScanAll(spec, AllCited(spec, views)).Ok?
    ensures !(SomeMarked(spec, AllCited(spec, views)) && SomeUnmarked(spec, AllCited(spec, views)))
  {
    hide SumAggregate, ScanAll, AllCited, MatchingFacts, Find;
    ScanMeaning(spec, AllCited(spec, views));
  }

  lemma OrderableIsSoundFor(p: Params, c: Params, asset: Resource, views: seq<View>, active: seq<ModuleRef>)
    requires ValidParams(p) && Orderable(p) && ValidParams(c) && asset.kind.CANONICAL_ASSET? && ValidViews(views)
    ensures SoundFor(p, c, asset, views, active)
  {
    var s, t := Spec(p, asset), Spec(c, asset);
    if Compare(p, c) == NO_WEAKER && Evaluate(t, views, active).outcome == HOLDS {
      assert Covers(p, c) && p.kind == c.kind && p.unit == c.unit && p.decimals <= MAX_DECIMALS;
      hide Compare, SumAggregate, Evaluate, AllCited, ScanAll, MatchingFacts, Find, ModuleTotal, ValidFact, ValidModule, ContextOf;
      HoldingParts(t, views, active);
      ViewsAreFine(views);
      SumVerdict(t, views);
      forall i | 0 <= i < |p.contributors| ensures Find(views, p.contributors[i]).Some? {
        assert p.contributors[i] in c.contributors;
        var k :| 0 <= k < |c.contributors| && c.contributors[k] == p.contributors[i];
      }
      ParentTotalBounded(p, c, asset, views);
      SumVerdict(s, views);
      forall m | m in p.contributors ensures m in c.contributors {
        var i :| 0 <= i < |p.contributors| && p.contributors[i] == m;
      }
      CitedShrink(s, t, views);
      EchoedWithin(s, t, AllCited(s, views), AllCited(t, views));
      ValuationsShrink(s, t, AllCited(s, views), AllCited(t, views));
      ScanMeaning(s, AllCited(s, views));
      ParentEvaluates(s, views, active);
    }
  }

  lemma ParentEvaluates(s: Spec, views: seq<View>, active: seq<ModuleRef>)
    requires SumAggregate(s, views).outcome == HOLDS
    requires forall i :: 0 <= i < |s.params.contributors| ==> Find(views, s.params.contributors[i]).Some?
    requires forall i :: 0 <= i < |active| ==> Find(views, active[i]).Some?
    requires ScanAll(s, AllCited(s, views)).Ok? && Scanned(s, AllCited(s, views), ScanAll(s, AllCited(s, views)).value)
    requires !(SomeMarked(s, AllCited(s, views)) && SomeUnmarked(s, AllCited(s, views)))
    ensures var e := Evaluate(s, views, active);
            e.outcome == HOLDS || (e.outcome == UNKNOWN && e.reason == "UNDECLARED_CONTRIBUTOR")
  {
    hide SumAggregate, ScanAll, AllCited, MatchingFacts, Find;
  }

  // ---- The closed scope ------------------------------------------------------------------------

  predicate DistinctViews(views: seq<View>) {
    forall i, j :: 0 <= i < j < |views| ==> views[i].moduleRef != views[j].moduleRef
  }

  // Every matching fact of every participant, each participant once.
  function AllMatching(spec: Spec, views: seq<View>): seq<Fact> {
    if views == [] then [] else AllMatching(spec, views[..|views| - 1]) + MatchingFacts(spec, views[|views| - 1].facts)
  }

  function ModulesOf(views: seq<View>): (r: seq<ModuleRef>)
    ensures |r| == |views|
  {
    seq(|views|, i requires 0 <= i < |views| => views[i].moduleRef)
  }

  lemma {:induction false} FindsItself(views: seq<View>, i: nat)
    requires DistinctViews(views) && i < |views|
    ensures Find(views, views[i].moduleRef) == Some(views[i])
    decreases |views|
  {
    if i > 0 {
      assert DistinctViews(views[1..]);
      assert views[0].moduleRef != views[i].moduleRef;
      FindsItself(views[1..], i - 1);
    }
  }

  lemma {:induction false} AllMatchingTotal(spec: Spec, views: seq<View>, n: nat)
    requires n <= |views| && DistinctViews(views) && FineViews(views)
    ensures Fine(AllMatching(spec, views[..n]))
    ensures Exactly(AllMatching(spec, views[..n])) == SumOf(ModulesOf(views)[..n], Totals(spec, views))
    decreases n
  {
    hide MatchingFacts, Find;
    if n > 0 {
      AllMatchingTotal(spec, views, n - 1);
      assert views[..n][..n - 1] == views[..n - 1];
      assert ModulesOf(views)[..n][..n - 1] == ModulesOf(views)[..n - 1];
      MatchingFine(spec, views[n - 1].facts);
      SumAtConcat(AllMatching(spec, views[..n - 1]), MatchingFacts(spec, views[n - 1].facts), MAX_DECIMALS);
      FindsItself(views, n - 1);
    }
  }

  // Every contributor is named equally often, as it is when each is named once.
  predicate Even(ms: seq<ModuleRef>) {
    forall i, j :: 0 <= i < |ms| && 0 <= j < |ms| ==> multiset(ms)[ms[i]] == multiset(ms)[ms[j]]
  }

  // When the sum over the list, repetitions included, bounds the total over the modules on it.
  predicate Counted(p: Params) {
    !SignedKind(p.kind) || !Matchable(p.kind, p.unit) || Even(p.contributors)
  }

  // A holding aggregate saw every active module, and the exact total of all matching facts of everyone it saw, each
  // participant counted once, is within the limit.
  lemma HoldsBoundsEverything(spec: Spec, views: seq<View>, active: seq<ModuleRef>)
    requires ValidParams(spec.params) && Counted(spec.params) && spec.asset.kind.CANONICAL_ASSET?
    requires ValidViews(views) && DistinctViews(views) && Evaluate(spec, views, active).outcome == HOLDS
    ensures forall i :: 0 <= i < |active| ==> active[i] in ModulesOf(views)
    ensures Fine(AllMatching(spec, views)) && Exactly(AllMatching(spec, views)) <= LimitExactly(spec.params)
  {
    hide SumAggregate, Evaluate, CheckValuations, CheckScope, ScanAll, ModuleTotal, ValidViews, Counted, LimitExactly;
    HoldingParts(spec, views, active);
    ViewsAreFine(views);
    SumVerdict(spec, views);
    var cs, f := spec.params.contributors, Totals(spec, views);
    AllMatchingTotal(spec, views, |views|);
    assert views[..|views|] == views && ModulesOf(views)[..|views|] == ModulesOf(views);
    ConsultedAll(views, active);
    ConsultedAll(views, cs);
    DedupKeeps(cs);
    ContributorsCarryAll(spec, views, Dedup(cs), f);
    forall m ensures !SignedKind(spec.params.kind) ==> f(m) >= 0
             ensures !Matchable(spec.params.kind, spec.params.unit) ==> f(m) == 0
    {
      if !SignedKind(spec.params.kind) {
        UnsignedTotal(spec, views, m);
      }
      if !Matchable(spec.params.kind, spec.params.unit) {
        UnmatchableTotal(spec, views, m);
      }
    }
    OnceEachBounded(spec.params, f);
  }

  lemma ConsultedAll(views: seq<View>, ms: seq<ModuleRef>)
    requires forall i :: 0 <= i < |ms| ==> Find(views, ms[i]).Some?
    ensures forall i :: 0 <= i < |ms| ==> ms[i] in ModulesOf(views)
  {
    forall i | 0 <= i < |ms| ensures ms[i] in ModulesOf(views) {
      FoundInModules(views, ms[i]);
    }
  }

  // A sum within the limit with every repetition is within it with each module once.
  lemma OnceEachBounded(p: Params, f: ModuleRef -> int)
    requires ValidParams(p) && Counted(p) && SumOf(p.contributors, f) <= LimitExactly(p)
    requires !SignedKind(p.kind) ==> forall m :: f(m) >= 0
    requires !Matchable(p.kind, p.unit) ==> forall m :: f(m) == 0
    ensures SumOf(Dedup(p.contributors), f) <= LimitExactly(p)
  {
    LimitNotNegative(p);
    hide LimitExactly, SumOf, ValidParams;
    var cs, ds := p.contributors, Dedup(p.contributors);
    DedupKeeps(cs);
    if !SignedKind(p.kind) {
      forall i | 0 <= i < |ds| ensures ds[i] in cs {
      }
      var zs := Leftover(ds, cs, f);
      SumNonNegative(zs, f);
    } else if !Matchable(p.kind, p.unit) {
      SumZero(ds, f);
    } else {
      EvenSum(cs, f);
    }
  }

  // How much each module adds to a sum over a list that names it several times.
  function Weighted(ms: seq<ModuleRef>, f: ModuleRef -> int): ModuleRef -> int {
    m => multiset(ms)[m] * f(m)
  }

  // A sum over a list is the sum over its distinct modules, each times as often as it is named.
  lemma {:induction false} SumByCount(ms: seq<ModuleRef>, ds: seq<ModuleRef>, f: ModuleRef -> int)
    requires DistinctRefs(ds) && forall m :: m in ms ==> m in ds
    ensures SumOf(ms, f) == SumOf(ds, Weighted(ms, f))
    decreases |ms|
  {
    if ms == [] {
      SumZero(ds, Weighted(ms, f));
    } else {
      var front, last := ms[..|ms| - 1], ms[|ms| - 1];
      assert ms == front + [last];
      SumByCount(front, ds, f);
      assert last in ms;
      var g, h := Weighted(front, f), Weighted(ms, f);
      forall m ensures h(m) == g(m) + if m == last then f(last) else 0 {
        if m == last {
          Distribute(multiset(front)[m], 1, f(m));
        }
      }
      SumRaised(ds, g, h, last, f(last));
    }
  }

  // One module worth more raises a sum over distinct modules by as much.
  lemma {:induction false} SumRaised(ds: seq<ModuleRef>, g: ModuleRef -> int, h: ModuleRef -> int, x: ModuleRef, more: int)
    requires DistinctRefs(ds) && forall m :: h(m) == g(m) + if m == x then more else 0
    ensures SumOf(ds, h) == SumOf(ds, g) + if x in ds then more else 0
    decreases |ds|
  {
    if ds != [] {
      var front, last := ds[..|ds| - 1], ds[|ds| - 1];
      assert forall m :: m in ds <==> m in front || m == last;
      assert last !in front;
      SumRaised(front, g, h, x, more);
    }
  }

  lemma {:induction false} SumScaled(ds: seq<ModuleRef>, f: ModuleRef -> int, g: ModuleRef -> int, n: int)
    requires forall m :: m in ds ==> g(m) == n * f(m)
    ensures SumOf(ds, g) == n * SumOf(ds, f)
    decreases |ds|
  {
    if ds != [] {
      var front, last := ds[..|ds| - 1], ds[|ds| - 1];
      assert forall m :: m in ds <==> m in front || m == last;
      SumScaled(front, f, g, n);
      assert n * (SumOf(front, f) + f(last)) == n * SumOf(front, f) + n * f(last);
    }
  }

  // Named equally often, a list sums to a multiple of the sum over its distinct modules.
  lemma EvenSum(cs: seq<ModuleRef>, f: ModuleRef -> int)
    requires Even(cs) && cs != []
    ensures SumOf(cs, f) <= 0 ==> SumOf(Dedup(cs), f) <= 0
    ensures SumOf(cs, f) >= 0 ==> SumOf(Dedup(cs), f) <= SumOf(cs, f)
  {
    hide SumOf;
    var ds, n := Dedup(cs), multiset(cs)[cs[0]];
    DedupKeeps(cs);
    SumByCount(cs, ds, f);
    forall m | m in ds ensures Weighted(cs, f)(m) == n * f(m) {
      var i :| 0 <= i < |cs| && cs[i] == m;
      assert multiset(cs)[cs[i]] == multiset(cs)[cs[0]];
    }
    SumScaled(ds, f, Weighted(cs, f), n);
    assert cs[0] in multiset(cs);
    AtLeastOnce(n, SumOf(ds, f));
  }

  lemma AtLeastOnce(n: int, s: int)
    requires n >= 1
    ensures s > 0 ==> n * s >= s
    ensures n * s >= 0 ==> s >= 0
  {
    if s > 0 {
      MulMonotone(1, n, s);
    } else if s < 0 {
      MulMonotone(1, n, -s);
      assert n * -s == -(n * s);
    }
  }

  lemma {:induction false} FoundInModules(views: seq<View>, m: ModuleRef)
    requires Find(views, m).Some?
    ensures m in ModulesOf(views)
    decreases |views|
  {
    if views[0].moduleRef == m {
      assert ModulesOf(views)[0] == m;
    } else {
      FoundInModules(views[1..], m);
      var i :| 0 <= i < |views| - 1 && ModulesOf(views[1..])[i] == m;
      assert ModulesOf(views)[i + 1] == m;
    }
  }

  lemma ContributorsCarryAll(spec: Spec, views: seq<View>, ds: seq<ModuleRef>, f: ModuleRef -> int)
    requires DistinctRefs(ds) && (forall m :: m in ds <==> m in spec.params.contributors) && DistinctViews(views)
    requires forall i :: 0 <= i < |spec.params.contributors| ==> spec.params.contributors[i] in ModulesOf(views)
    requires forall i :: 0 <= i < |views| ==> Contributor(spec, views[i].moduleRef) || MatchingFacts(spec, views[i].facts) == []
    requires f == Totals(spec, views)
    ensures SumOf(ds, f) == SumOf(ModulesOf(views), f)
  {
    var ms := ModulesOf(views);
    forall m | m in ms && m !in ds ensures f(m) == 0 {
      var i :| 0 <= i < |ms| && ms[i] == m;
      FindsItself(views, i);
      NothingTotal();
    }
    forall i | 0 <= i < |ds| ensures ds[i] in ms {
      assert ds[i] in spec.params.contributors;
      var k :| 0 <= k < |spec.params.contributors| && spec.params.contributors[k] == ds[i];
    }
    SameTotal(ds, ms, f);
  }

  lemma NothingTotal()
    ensures Exactly([]) == 0
  {
  }

  function Dedup(ms: seq<ModuleRef>): seq<ModuleRef> {
    if ms == [] then []
    else
      var before := Dedup(ms[..|ms| - 1]);
      if ms[|ms| - 1] in before then before else before + [ms[|ms| - 1]]
  }

  lemma {:induction false} DedupKeeps(ms: seq<ModuleRef>)
    ensures DistinctRefs(Dedup(ms)) && |Dedup(ms)| <= |ms| && (ms != [] ==> Dedup(ms) != [])
    ensures forall m :: m in Dedup(ms) <==> m in ms
    decreases |ms|
  {
    if ms != [] {
      DedupKeeps(ms[..|ms| - 1]);
      assert forall m :: m in ms <==> m in ms[..|ms| - 1] || m == ms[|ms| - 1];
    }
  }

  lemma RemoveOne(ms: seq<ModuleRef>, c: ModuleRef, f: ModuleRef -> int) returns (others: seq<ModuleRef>)
    requires DistinctRefs(ms) && c in ms
    ensures DistinctRefs(others) && SumOf(ms, f) == SumOf(others, f) + f(c)
    ensures forall m :: m in others <==> m in ms && m != c
  {
    var k :| 0 <= k < |ms| && ms[k] == c;
    others := SumWithout(ms, k, f);
    hide SumOf;
    DropOne(ms, k, others);
  }

  lemma DropOne(ms: seq<ModuleRef>, k: nat, others: seq<ModuleRef>)
    requires DistinctRefs(ms) && k < |ms| && others == ms[..k] + ms[k + 1..]
    ensures DistinctRefs(others) && forall m :: m in others <==> m in ms && m != ms[k]
  {
    assert forall q :: 0 <= q < |others| ==> others[q] == ms[if q < k then q else q + 1];
    forall m | m in ms && m != ms[k] ensures m in others {
      var q :| 0 <= q < |ms| && ms[q] == m;
      assert others[if q < k then q else q - 1] == m;
    }
  }

  // Modules worth nothing outside a distinct sublist do not change the sum.
  lemma {:induction false} SameTotal(cs: seq<ModuleRef>, ms: seq<ModuleRef>, f: ModuleRef -> int)
    requires DistinctRefs(cs) && DistinctRefs(ms) && forall i :: 0 <= i < |cs| ==> cs[i] in ms
    requires forall m :: m in ms && m !in cs ==> f(m) == 0
    ensures SumOf(cs, f) == SumOf(ms, f)
    decreases |cs|
  {
    if cs == [] {
      SumZero(ms, f);
    } else {
      var c, rest := cs[|cs| - 1], cs[..|cs| - 1];
      assert c in cs && c in ms;
      var others := RemoveOne(ms, c, f);
      assert forall m :: m in cs <==> m in rest || m == c;
      forall i | 0 <= i < |rest| ensures rest[i] in others {
        assert rest[i] == cs[i] && cs[i] != c;
      }
      SameTotal(rest, others, f);
    }
  }
}
