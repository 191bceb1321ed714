// The aggregate's verdict and exact sum do not depend on the order of participants, contributors, active modules or
// facts, nor on the decimals a fact is written with.
module AggregateOrder {
  import opened Common
  import opened Core
  import opened Decimals
  import opened Canonical
  import opened StateAdmission
  import opened StateBindings
  import opened Aggregate
  import opened AggregateSafety

  lemma DistinctPermuted(views: seq<View>, other: seq<View>)
    requires DistinctViews(views) && multiset(views) == multiset(other)
    ensures DistinctViews(other)
  {
    forall i, j | 0 <= i < j < |other| ensures other[i].moduleRef != other[j].moduleRef {
      TwiceIn(other, i, j);
      var p, q := PositionsOf(views, other[i], other[j]);
      assert views[Lesser(p, q)].moduleRef != views[p + q - Lesser(p, q)].moduleRef;
    }
  }

  lemma {:induction false} FindWhere(views: seq<View>, m: ModuleRef)
    ensures Find(views, m).Some? ==> Find(views, m).value in views && Find(views, m).value.moduleRef == m
    ensures Find(views, m).None? ==> forall v :: v in views ==> v.moduleRef != m
    decreases |views|
  {
    if views != [] && views[0].moduleRef != m {
      FindWhere(views[1..], m);
      assert views == [views[0]] + views[1..];
    }
  }

  lemma FindPermuted(views: seq<View>, other: seq<View>, m: ModuleRef)
    requires DistinctViews(views) && multiset(views) == multiset(other)
    ensures Find(other, m) == Find(views, m)
  {
    SameMembers(views, other);
    DistinctPermuted(views, other);
    FindWhere(views, m);
    FindWhere(other, m);
    if Find(views, m).Some? {
      var i :| 0 <= i < |other| && other[i] == Find(views, m).value;
      FindsItself(other, i);
    }
  }

  // ---- Sums and scales of a multiset of facts --------------------------------------------------

  lemma MatchFirst<T>(xs: seq<T>, ys: seq<T>) returns (k: nat)
    requires multiset(xs) == multiset(ys) && xs != []
    ensures k < |ys| && ys[k] == xs[0] && multiset(xs[1..]) == multiset(ys[..k] + ys[k + 1..])
  {
    assert xs == [xs[0]] + xs[1..] && xs[0] in multiset(xs);
    k := TakeOut(ys, xs[0]);
    assert multiset(xs[1..]) == multiset(xs) - multiset{xs[0]};
  }

  lemma EmptyPermuted<T>(xs: seq<T>, ys: seq<T>)
    requires multiset(xs) == multiset(ys) && xs == []
    ensures ys == []
  {
    assert |multiset(ys)| == |ys|;
  }

  lemma SumAtTakeOut(ys: seq<Fact>, k: nat, scale: nat)
    requires k < |ys| && forall i :: 0 <= i < |ys| ==> ys[i].decimals <= scale
    ensures SumAt(ys, scale) == SumAt(ys[..k] + ys[k + 1..], scale) + SumAt([ys[k]], scale)
  {
    assert ys == ys[..k] + [ys[k]] + ys[k + 1..];
    SumAtConcat(ys[..k] + [ys[k]], ys[k + 1..], scale);
    SumAtConcat(ys[..k], [ys[k]], scale);
    SumAtConcat(ys[..k], ys[k + 1..], scale);
  }

  lemma {:induction false} SumAtPermuted(xs: seq<Fact>, ys: seq<Fact>, scale: nat)
    requires multiset(xs) == multiset(ys)
    requires forall i :: 0 <= i < |xs| ==> xs[i].decimals <= scale
    ensures forall i :: 0 <= i < |ys| ==> ys[i].decimals <= scale
    ensures SumAt(xs, scale) == SumAt(ys, scale)
    decreases |xs|
  {
    hide SumAt;
    SameMembers(xs, ys);
    forall i | 0 <= i < |ys| ensures ys[i].decimals <= scale {
      assert ys[i] in xs;
    }
    if xs == [] {
      EmptyPermuted(xs, ys);
    } else {
      var k := MatchFirst(xs, ys);
      SumAtPermuted(xs[1..], ys[..k] + ys[k + 1..], scale);
      SumAtTakeOut(ys, k, scale);
      SumAtTakeOut(xs, 0, scale);
      assert xs[..0] + xs[1..] == xs[1..];
    }
  }

  lemma {:induction false} WidestIs(scale: nat, facts: seq<Fact>)
    ensures Widest(scale, facts) == scale || exists f :: f in facts && f.decimals == Widest(scale, facts)
    decreases |facts|
  {
    if facts != [] {
      WidestIs(scale, facts[..|facts| - 1]);
      assert facts[|facts| - 1] in facts;
      assert forall f :: f in facts[..|facts| - 1] ==> f in facts;
    }
  }

  lemma WidestPermuted(scale: nat, xs: seq<Fact>, ys: seq<Fact>)
    requires multiset(xs) == multiset(ys)
    ensures Widest(scale, xs) == Widest(scale, ys)
  {
    SameMembers(xs, ys);
    WidestIs(scale, xs);
    WidestIs(scale, ys);
    assert forall f :: f in xs ==> f.decimals <= Widest(scale, ys);
    assert forall f :: f in ys ==> f.decimals <= Widest(scale, xs);
  }

  // ---- Included facts --------------------------------------------------------------------------

  lemma {:induction false} IncludedConcat(spec: Spec, views: seq<View>, xs: seq<ModuleRef>, ys: seq<ModuleRef>)
    ensures Included(spec, views, xs + ys) == Included(spec, views, xs) + Included(spec, views, ys)
    decreases |ys|
  {
    if ys == [] {
      assert xs + ys == xs;
    } else {
      hide FactsOf;
      var front, last, all := ys[..|ys| - 1], ys[|ys| - 1], xs + ys;
      IncludedConcat(spec, views, xs, front);
      var facts := FactsOf(spec, views, last);
      assert all[..|all| - 1] == xs + front && all[|all| - 1] == last;
      var before, between := Included(spec, views, xs), Included(spec, views, front);
      assert before + between + facts == before + (between + facts);
    }
  }

  lemma IncludedTakeOut(spec: Spec, views: seq<View>, ys: seq<ModuleRef>, k: nat)
    requires k < |ys|
    ensures multiset(Included(spec, views, ys))
         == multiset(Included(spec, views, ys[..k] + ys[k + 1..])) + multiset(Included(spec, views, [ys[k]]))
  {
    hide FactsOf;
    assert ys == ys[..k] + [ys[k]] + ys[k + 1..];
    IncludedConcat(spec, views, ys[..k] + [ys[k]], ys[k + 1..]);
    IncludedConcat(spec, views, ys[..k], [ys[k]]);
    IncludedConcat(spec, views, ys[..k], ys[k + 1..]);
  }

  lemma {:induction false} IncludedPermuted(spec: Spec, views: seq<View>, xs: seq<ModuleRef>, ys: seq<ModuleRef>)
    requires multiset(xs) == multiset(ys)
    ensures multiset(Included(spec, views, xs)) == multiset(Included(spec, views, ys))
    decreases |xs|
  {
    hide Included;
    if xs == [] {
      EmptyPermuted(xs, ys);
    } else {
      var k := MatchFirst(xs, ys);
      IncludedPermuted(spec, views, xs[1..], ys[..k] + ys[k + 1..]);
      IncludedTakeOut(spec, views, ys, k);
      IncludedTakeOut(spec, views, xs, 0);
      assert xs[..0] + xs[1..] == xs[1..];
    }
  }

  lemma {:induction false} IncludedSameViews(spec: Spec, other: Spec, views: seq<View>, moved: seq<View>, ms: seq<ModuleRef>)
    requires DistinctViews(views) && multiset(views) == multiset(moved)
    requires other.params.kind == spec.params.kind && other.params.unit == spec.params.unit && other.asset == spec.asset
    ensures Included(other, moved, ms) == Included(spec, views, ms)
    decreases |ms|
  {
    if ms != [] {
      IncludedSameViews(spec, other, views, moved, ms[..|ms| - 1]);
      FindPermuted(views, moved, ms[|ms| - 1]);
      TotalsSame(spec, other, views, ms[|ms| - 1]);
    }
  }

  // ---- Scope and valuations under permutation --------------------------------------------------

  // The same aggregate with its contributors listed in another order.
  predicate Reordered(spec: Spec, other: Spec) {
    && other == spec.(params := spec.params.(contributors := other.params.contributors))
    && multiset(other.params.contributors) == multiset(spec.params.contributors)
  }

  lemma {:induction false} CitedWhere(spec: Spec, views: seq<View>, c: Cited)
    ensures c in AllCited(spec, views) <==> exists i :: 0 <= i < |views| && c in CitedBy(spec, views[i])
    decreases |views|
  {
    hide CitedBy;
    if views != [] {
      var before := views[..|views| - 1];
      CitedWhere(spec, before, c);
      if exists i :: 0 <= i < |before| && c in CitedBy(spec, before[i]) {
        var i :| 0 <= i < |before| && c in CitedBy(spec, before[i]);
        assert c in CitedBy(spec, views[i]);
      }
      if exists i :: 0 <= i < |views| && c in CitedBy(spec, views[i]) {
        var i :| 0 <= i < |views| && c in CitedBy(spec, views[i]);
        if i < |before| {
          assert c in CitedBy(spec, before[i]);
        }
      }
    }
  }

  lemma CitedMoves(spec: Spec, other: Spec, views: seq<View>, moved: seq<View>, c: Cited)
    requires Reordered(spec, other) && multiset(views) == multiset(moved) && c in AllCited(spec, views)
    ensures c in AllCited(other, moved)
  {
    SameMembers(views, moved);
    SameMembers(spec.params.contributors, other.params.contributors);
    CitedWhere(spec, views, c);
    CitedWhere(other, moved, c);
    var i :| 0 <= i < |views| && c in CitedBy(spec, views[i]);
    assert views[i] in moved;
    var k :| 0 <= k < |moved| && moved[k] == views[i];
    MatchingSame(spec, other, views[i].facts);
    assert c in CitedBy(other, moved[k]);
  }

  lemma ValuationsMove(spec: Spec, other: Spec, views: seq<View>, moved: seq<View>)
    requires Reordered(spec, other) && multiset(views) == multiset(moved) && CheckValuations(spec, views).None?
    ensures CheckValuations(other, moved).None?
  {
    hide AllCited, ContextOf, ScanAll;
    Backwards(spec, other);
    forall c | c in AllCited(other, moved) ensures c in AllCited(spec, views) {
      CitedMoves(other, spec, moved, views, c);
    }
    ScanMeaning(spec, AllCited(spec, views));
    ScanMeaning(other, AllCited(other, moved));
    EchoedWithin(other, spec, AllCited(other, moved), AllCited(spec, views));
    ValuationsShrink(other, spec, AllCited(other, moved), AllCited(spec, views));
  }

  lemma Backwards(spec: Spec, other: Spec)
    requires Reordered(spec, other)
    ensures Reordered(other, spec)
  {
  }

  lemma ScopeMoves(spec: Spec, other: Spec, views: seq<View>, moved: seq<View>, active: seq<ModuleRef>, again: seq<ModuleRef>)
    requires Reordered(spec, other) && DistinctViews(views) && multiset(views) == multiset(moved) && multiset(active) == multiset(again)
    requires CheckScope(spec, views, active).None?
    ensures CheckScope(other, moved, again).None?
  {
    hide Find;
    SameMembers(views, moved);
    SameMembers(active, again);
    SameMembers(spec.params.contributors, other.params.contributors);
    forall i | 0 <= i < |moved| ensures Contributor(other, moved[i].moduleRef) || MatchingFacts(other, moved[i].facts) == [] {
      assert moved[i] in views;
      var k :| 0 <= k < |views| && views[k] == moved[i];
      MatchingSame(spec, other, moved[i].facts);
    }
    forall i | 0 <= i < |other.params.contributors| ensures Find(moved, other.params.contributors[i]).Some? {
      assert other.params.contributors[i] in spec.params.contributors;
      var k :| 0 <= k < |spec.params.contributors| && spec.params.contributors[k] == other.params.contributors[i];
      FindPermuted(views, moved, other.params.contributors[i]);
    }
    forall i | 0 <= i < |again| ensures Find(moved, again[i]).Some? {
      assert again[i] in active;
      var k :| 0 <= k < |active| && active[k] == again[i];
      FindPermuted(views, moved, again[i]);
    }
  }

  lemma SumMoves(spec: Spec, other: Spec, views: seq<View>, moved: seq<View>)
    requires Reordered(spec, other) && DistinctViews(views) && multiset(views) == multiset(moved)
    requires forall i :: 0 <= i < |spec.params.contributors| ==> Find(views, spec.params.contributors[i]).Some?
    requires forall i :: 0 <= i < |other.params.contributors| ==> Find(moved, other.params.contributors[i]).Some?
    ensures SumAggregate(other, moved) == SumAggregate(spec, views)
  {
    hide Find, Included, SumAt, Widest, Pow10;
    var xs, ys := Included(spec, views, spec.params.contributors), Included(other, moved, other.params.contributors);
    IncludedSameViews(spec, other, views, moved, other.params.contributors);
    IncludedPermuted(spec, views, spec.params.contributors, other.params.contributors);
    WidestPermuted(spec.params.decimals, xs, ys);
    SumAtPermuted(xs, ys, Widest(spec.params.decimals, xs));
  }

  // For every order of participants, contributors and active modules: the same verdict, and the same sum when there is one.
  lemma EvaluateIgnoresOrder(spec: Spec, other: Spec, views: seq<View>, moved: seq<View>, active: seq<ModuleRef>, again: seq<ModuleRef>)
    requires Reordered(spec, other) && DistinctViews(views) && multiset(views) == multiset(moved) && multiset(active) == multiset(again)
    ensures Evaluate(other, moved, again).outcome == Evaluate(spec, views, active).outcome
    ensures Evaluate(spec, views, active).outcome != UNKNOWN ==> Evaluate(other, moved, again) == Evaluate(spec, views, active)
  {
    hide CheckValuations, SumAggregate;
    Backwards(spec, other);
    DistinctPermuted(views, moved);
    if CheckScope(spec, views, active).None? {
      ScopeMoves(spec, other, views, moved, active, again);
      SumMoves(spec, other, views, moved);
    } else if CheckScope(other, moved, again).None? {
      ScopeMoves(other, spec, moved, views, again, active);
    }
    if CheckValuations(spec, views).None? {
      ValuationsMove(spec, other, views, moved);
    } else if CheckValuations(other, moved).None? {
      ValuationsMove(other, spec, moved, views);
    }
  }

  // ---- Facts within a participant --------------------------------------------------------------

  // The same amount in another number of decimals: nothing but the spelling differs.
  predicate Restates(f: Fact, g: Fact) {
    g == f.(decimals := g.decimals, atoms := g.atoms) && f.atoms * Pow10(g.decimals) == g.atoms * Pow10(f.decimals)
  }

  predicate RestatesAll(xs: seq<Fact>, ys: seq<Fact>) {
    |xs| == |ys| && forall i :: 0 <= i < |xs| ==> Restates(xs[i], ys[i])
  }

  // The same facts, each restated, in any order.
  ghost predicate Rewritten(xs: seq<Fact>, ys: seq<Fact>) {
    exists zs :: RestatesAll(xs, zs) && multiset(zs) == multiset(ys)
  }

  // The same participants in the same order, each with its facts rewritten.
  ghost predicate RewrittenViews(views: seq<View>, others: seq<View>) {
    && |views| == |others|
    && forall i :: 0 <= i < |views| ==>
         && others[i].moduleRef == views[i].moduleRef && others[i].admitted == views[i].admitted
         && Rewritten(views[i].facts, others[i].facts)
  }

  lemma CancelFactor(a: int, b: int, k: int)
    requires k > 0 && a * k == b * k
    ensures a == b
  {
    if a < b {
      MulMonotone(a + 1, b, k);
    } else if b < a {
      MulMonotone(b + 1, a, k);
    }
  }

  lemma RestatedWorth(f: Fact, g: Fact)
    requires f.decimals <= MAX_DECIMALS && g.decimals <= MAX_DECIMALS && Restates(f, g)
    ensures f.atoms * Pow10(MAX_DECIMALS - f.decimals) == g.atoms * Pow10(MAX_DECIMALS - g.decimals)
  {
    var d, e := f.decimals, g.decimals;
    var x, y := Pow10(MAX_DECIMALS - d), Pow10(MAX_DECIMALS - e);
    Pow10Sum(MAX_DECIMALS - d, d);
    Pow10Sum(MAX_DECIMALS - e, e);
    var k := Pow10(d) * Pow10(e);
    assert (f.atoms * x) * k == (f.atoms * Pow10(e)) * (x * Pow10(d)) by {
      Rearrange(f.atoms, x, Pow10(d), Pow10(e));
    }
    assert (g.atoms * y) * k == (g.atoms * Pow10(d)) * (y * Pow10(e)) by {
      Rearrange(g.atoms, y, Pow10(e), Pow10(d));
    }
    MulMonotone(1, Pow10(d), Pow10(e));
    CancelFactor(f.atoms * x, g.atoms * y, k);
  }

  lemma Rearrange(a: int, x: int, p: int, q: int)
    ensures (a * x) * (p * q) == (a * q) * (x * p)
    ensures (a * x) * (q * p) == (a * q) * (x * p)
  {
    MulAssoc(a, x, p * q);
    MulAssoc(x, p, q);
    MulAssoc(a, x * p, q);
    MulAssoc(a, q, x * p);
    assert (x * p) * q == q * (x * p);
    assert p * q == q * p;
  }

  lemma {:induction false} RestatedTotal(xs: seq<Fact>, ys: seq<Fact>)
    requires Fine(xs) && Fine(ys) && RestatesAll(xs, ys)
    ensures Exactly(xs) == Exactly(ys)
    decreases |xs|
  {
    hide Restates;
    if xs != [] {
      var n := |xs| - 1;
      assert RestatesAll(xs[..n], ys[..n]);
      RestatedTotal(xs[..n], ys[..n]);
      assert Restates(xs[n], ys[n]);
      RestatedWorth(xs[n], ys[n]);
    }
  }

  // Facts in another order and with other decimals have the same exact total.
  lemma RewrittenTotal(xs: seq<Fact>, ys: seq<Fact>)
    requires Fine(xs) && Fine(ys) && Rewritten(xs, ys)
    ensures Exactly(xs) == Exactly(ys)
  {
    hide Restates, SumAt, RestatesAll;
    var zs :| RestatesAll(xs, zs) && multiset(zs) == multiset(ys);
    SumAtPermuted(ys, zs, MAX_DECIMALS);
    RestatedTotal(xs, zs);
  }

  // ---- Rewriting and matching ------------------------------------------------------------------

  lemma {:induction false} MatchingConcat(spec: Spec, xs: seq<Fact>, ys: seq<Fact>)
    ensures MatchingFacts(spec, xs + ys) == MatchingFacts(spec, xs) + MatchingFacts(spec, ys)
    decreases |xs|
  {
    if xs == [] {
      assert xs + ys == ys;
    } else {
      MatchingConcat(spec, xs[1..], ys);
      assert (xs + ys)[1..] == xs[1..] + ys;
    }
  }

  lemma {:induction false} MatchingRestated(spec: Spec, xs: seq<Fact>, ys: seq<Fact>)
    requires RestatesAll(xs, ys)
    ensures RestatesAll(MatchingFacts(spec, xs), MatchingFacts(spec, ys))
    decreases |xs|
  {
    if xs != [] {
      assert Restates(xs[0], ys[0]);
      assert RestatesAll(xs[1..], ys[1..]) by {
        assert forall i :: 0 <= i < |xs[1..]| ==> xs[1..][i] == xs[i + 1] && ys[1..][i] == ys[i + 1];
      }
      MatchingRestated(spec, xs[1..], ys[1..]);
    }
  }

  lemma {:induction false} MatchingPermuted(spec: Spec, xs: seq<Fact>, ys: seq<Fact>)
    requires multiset(xs) == multiset(ys)
    ensures multiset(MatchingFacts(spec, xs)) == multiset(MatchingFacts(spec, ys))
    decreases |xs|
  {
    hide Matches;
    if xs == [] {
      EmptyPermuted(xs, ys);
    } else {
      var k := MatchFirst(xs, ys);
      var before, x, after := ys[..k], [ys[k]], ys[k + 1..];
      MatchingPermuted(spec, xs[1..], before + after);
      assert xs == x + xs[1..] && ys == before + (x + after);
      hide MatchingFacts;
      MatchingConcat(spec, x, xs[1..]);
      MatchingConcat(spec, before, x + after);
      MatchingConcat(spec, x, after);
      MatchingConcat(spec, before, after);
    }
  }

  lemma MatchingRewritten(spec: Spec, xs: seq<Fact>, ys: seq<Fact>)
    requires Rewritten(xs, ys)
    ensures Rewritten(MatchingFacts(spec, xs), MatchingFacts(spec, ys))
    ensures MatchingFacts(spec, xs) == [] <==> MatchingFacts(spec, ys) == []
  {
    hide Restates, MatchingFacts;
    var zs :| RestatesAll(xs, zs) && multiset(zs) == multiset(ys);
    MatchingRestated(spec, xs, zs);
    MatchingPermuted(spec, zs, ys);
    var found, other := MatchingFacts(spec, zs), MatchingFacts(spec, ys);
    assert |multiset(found)| == |found| && |multiset(other)| == |other|;
  }

  // ---- Rewritten participants ------------------------------------------------------------------

  lemma {:induction false} FindRewritten(views: seq<View>, others: seq<View>, m: ModuleRef)
    requires RewrittenViews(views, others)
    ensures Find(views, m).Some? <==> Find(others, m).Some?
    ensures Find(views, m).Some? ==> Rewritten(Find(views, m).value.facts, Find(others, m).value.facts)
    decreases |views|
  {
    hide Rewritten;
    if views != [] && views[0].moduleRef != m {
      var n, o := views[1..], others[1..];
      assert forall i :: 0 <= i < |n| ==> n[i] == views[i + 1] && o[i] == others[i + 1];
      FindRewritten(n, o, m);
    }
  }

  lemma ScopeRewritten(spec: Spec, views: seq<View>, others: seq<View>, active: seq<ModuleRef>)
    requires RewrittenViews(views, others)
    ensures CheckScope(spec, others, active) == CheckScope(spec, views, active)
  {
    hide Rewritten, MatchingFacts, Find;
    forall i | 0 <= i < |views|
      ensures others[i].moduleRef == views[i].moduleRef
      ensures MatchingFacts(spec, views[i].facts) == [] <==> MatchingFacts(spec, others[i].facts) == []
    {
      MatchingRewritten(spec, views[i].facts, others[i].facts);
    }
    forall m ensures Find(views, m).Some? <==> Find(others, m).Some? {
      FindRewritten(views, others, m);
    }
  }

  lemma FactEchoed(spec: Spec, xs: seq<Fact>, ys: seq<Fact>, f: Fact) returns (g: Fact)
    requires Rewritten(xs, ys) && f in ys
    ensures g in xs && g.valuation == f.valuation
  {
    var zs :| RestatesAll(xs, zs) && multiset(zs) == multiset(ys);
    SameMembers(zs, ys);
    var i :| 0 <= i < |zs| && zs[i] == f;
    assert Restates(xs[i], zs[i]);
    g := xs[i];
  }

  lemma SameContext(spec: Spec, f: Fact, g: Fact, admitted: set<Envelope>)
    requires f.valuation == g.valuation
    ensures ContextOf(spec, f, admitted) == ContextOf(spec, g, admitted)
  {
  }

  lemma CitesRewritten(spec: Spec, views: seq<View>, others: seq<View>)
    requires RewrittenViews(views, others)
    ensures AllEchoed(spec, spec, AllCited(spec, others), AllCited(spec, views))
  {
    hide Rewritten, MatchingFacts, ContextOf, AllCited;
    var xs, ys := AllCited(spec, others), AllCited(spec, views);
    forall k | 0 <= k < |xs| ensures Echoed(spec, spec, xs[k], ys) {
      CitedWhere(spec, others, xs[k]);
      var i :| 0 <= i < |others| && xs[k] in CitedBy(spec, others[i]);
      var found := MatchingFacts(spec, others[i].facts);
      var j :| 0 <= j < |found| && xs[k] == Cited(found[j], others[i].admitted);
      MatchingRewritten(spec, views[i].facts, others[i].facts);
      var g := FactEchoed(spec, MatchingFacts(spec, views[i].facts), found, found[j]);
      SameContext(spec, found[j], g, others[i].admitted);
      CitesAll(spec, views, i, g);
      var l :| 0 <= l < |ys| && ys[l] == Cited(g, views[i].admitted);
    }
  }

  lemma CitesAll(spec: Spec, views: seq<View>, i: nat, g: Fact)
    requires i < |views| && Contributor(spec, views[i].moduleRef) && g in MatchingFacts(spec, views[i].facts)
    ensures Cited(g, views[i].admitted) in AllCited(spec, views)
  {
    hide MatchingFacts, AllCited;
    var found := MatchingFacts(spec, views[i].facts);
    var k :| 0 <= k < |found| && found[k] == g;
    assert Cite(found, views[i].admitted)[k] == Cited(g, views[i].admitted);
    CitedWhere(spec, views, Cited(g, views[i].admitted));
  }

  lemma ValuationsRewritten(spec: Spec, views: seq<View>, others: seq<View>)
    requires RewrittenViews(views, others) && CheckValuations(spec, views).None?
    ensures CheckValuations(spec, others).None?
  {
    hide AllCited, ContextOf, ScanAll, RewrittenViews, AllEchoed;
    CitesRewritten(spec, views, others);
    ScanMeaning(spec, AllCited(spec, views));
    ScanMeaning(spec, AllCited(spec, others));
    ValuationsShrink(spec, spec, AllCited(spec, others), AllCited(spec, views));
  }

  // Rewriting can be undone.
  lemma {:induction false} Unpermute(xs: seq<Fact>, zs: seq<Fact>, ys: seq<Fact>) returns (ws: seq<Fact>)
    requires RestatesAll(xs, zs) && multiset(zs) == multiset(ys)
    ensures RestatesAll(ys, ws) && multiset(ws) == multiset(xs)
    decreases |ys|
  {
    if ys == [] {
      EmptyPermuted(ys, zs);
      ws := [];
    } else {
      var k := MatchFirst(ys, zs);
      var restXs, restZs := xs[..k] + xs[k + 1..], zs[..k] + zs[k + 1..];
      assert Restates(xs[k], zs[k]);
      forall i | 0 <= i < |restXs| ensures Restates(restXs[i], restZs[i]) {
        assert Restates(xs[if i < k then i else i + 1], zs[if i < k then i else i + 1]);
      }
      hide Restates;
      var rest := Unpermute(restXs, restZs, ys[1..]);
      ws := [xs[k]] + rest;
      assert xs == xs[..k] + [xs[k]] + xs[k + 1..];
      Unrestates(xs[k], zs[k]);
      forall i | 0 <= i < |ys| ensures Restates(ys[i], ws[i]) {
        if i > 0 {
          assert Restates(ys[1..][i - 1], rest[i - 1]);
        }
      }
    }
  }

  lemma Unrestates(f: Fact, g: Fact)
    requires Restates(f, g)
    ensures Restates(g, f)
  {
  }

  lemma UnrewrittenViews(views: seq<View>, others: seq<View>)
    requires RewrittenViews(views, others)
    ensures RewrittenViews(others, views)
  {
    hide RestatesAll;
    forall i | 0 <= i < |views| ensures Rewritten(others[i].facts, views[i].facts) {
      assert Rewritten(views[i].facts, others[i].facts);
      var zs :| RestatesAll(views[i].facts, zs) && multiset(zs) == multiset(others[i].facts);
      var ws := Unpermute(views[i].facts, zs, others[i].facts);
    }
  }

  // ---- The result ------------------------------------------------------------------------------

  // A result's sum in units of 10^-38.
  function ExactSum(e: Evaluation): int
    requires e.decimals <= MAX_DECIMALS
  {
    e.observed * Pow10(MAX_DECIMALS - e.decimals)
  }

  // One verdict and, when there is a sum, one exact rational sum.
  predicate SameResult(a: Evaluation, b: Evaluation) {
    && a.outcome == b.outcome
    && (a.outcome != UNKNOWN ==>
          a.reason == b.reason && a.decimals <= MAX_DECIMALS && b.decimals <= MAX_DECIMALS && ExactSum(a) == ExactSum(b))
  }

  lemma ExactSumIs(spec: Spec, views: seq<View>)
    requires spec.params.decimals <= MAX_DECIMALS && FineViews(views)
    requires forall i :: 0 <= i < |spec.params.contributors| ==> Find(views, spec.params.contributors[i]).Some?
    ensures var e := SumAggregate(spec, views);
            e.decimals <= MAX_DECIMALS && ExactSum(e) == SumOf(spec.params.contributors, Totals(spec, views))
  {
    hide Included, Find, SumOf, Totals, Pow10, SumAt, FineViews;
    var cs := spec.params.contributors;
    var facts := Included(spec, views, cs);
    IncludedTotal(spec, views, cs);
    var scale := Widest(spec.params.decimals, facts);
    WidestBound(spec.params.decimals, facts);
    hide Widest;
    SumAtShifts(facts, scale, MAX_DECIMALS - scale);
  }

  lemma FoundFine(spec: Spec, views: seq<View>, m: ModuleRef)
    requires FineViews(views) && Find(views, m).Some?
    ensures Fine(MatchingFacts(spec, Find(views, m).value.facts))
  {
    FactsOfFine(spec, views, m);
  }

  lemma TotalsRewritten(spec: Spec, views: seq<View>, others: seq<View>, m: ModuleRef)
    requires RewrittenViews(views, others) && FineViews(views) && FineViews(others)
    ensures ModuleTotal(spec, others, m) == ModuleTotal(spec, views, m)
  {
    hide SumAt, MatchingFacts, Find, Rewritten, RewrittenViews, Fine, FineViews;
    FindRewritten(views, others, m);
    if Find(views, m).Some? {
      FoundFine(spec, views, m);
      FoundFine(spec, others, m);
      MatchingRewritten(spec, Find(views, m).value.facts, Find(others, m).value.facts);
      RewrittenTotal(MatchingFacts(spec, Find(views, m).value.facts), MatchingFacts(spec, Find(others, m).value.facts));
    }
  }

  lemma SumRewritten(spec: Spec, views: seq<View>, others: seq<View>)
    requires RewrittenViews(views, others) && FineViews(views) && FineViews(others) && spec.params.decimals <= MAX_DECIMALS
    requires forall i :: 0 <= i < |spec.params.contributors| ==> Find(views, spec.params.contributors[i]).Some?
    ensures SameResult(SumAggregate(spec, views), SumAggregate(spec, others))
  {
    hide ModuleTotal, Find, RewrittenViews, FineViews, Included, SumAt, Widest, ExactSum;
    var cs := spec.params.contributors;
    forall i | 0 <= i < |cs| ensures Find(others, cs[i]).Some? {
      FindRewritten(views, others, cs[i]);
    }
    forall i | 0 <= i < |cs| ensures Totals(spec, views)(cs[i]) == Totals(spec, others)(cs[i]) {
      TotalsRewritten(spec, views, others, cs[i]);
    }
    SumSame(cs, Totals(spec, views), Totals(spec, others));
    SumVerdict(spec, views);
    SumVerdict(spec, others);
    ExactSumIs(spec, views);
    ExactSumIs(spec, others);
  }

  // The same participants with their facts restated and reordered: the same verdict and the same exact sum.
  lemma EvaluateRewritten(spec: Spec, views: seq<View>, others: seq<View>, active: seq<ModuleRef>)
    requires RewrittenViews(views, others) && FineViews(views) && FineViews(others) && spec.params.decimals <= MAX_DECIMALS
    ensures SameResult(Evaluate(spec, views, active), Evaluate(spec, others, active))
  {
    hide CheckValuations, SumAggregate, RewrittenViews, FineViews, Find, MatchingFacts, ExactSum;
    ScopeRewritten(spec, views, others, active);
    UnrewrittenViews(views, others);
    if CheckScope(spec, views, active).None? {
      SumRewritten(spec, views, others);
    }
    if CheckValuations(spec, views).None? {
      ValuationsRewritten(spec, views, others);
    } else if CheckValuations(spec, others).None? {
      ValuationsRewritten(spec, others, views);
    }
  }

  // The same participants presented differently: each with its facts in any order and at any decimals, and all in any order.
  ghost predicate Represented(views: seq<View>, others: seq<View>) {
    exists between: seq<View> :: RewrittenViews(views, between) && multiset(between) == multiset(others)
  }

  // For every order of participants, of their facts, of contributors and of active modules, and for every decimals the
  // facts are written with: the same verdict and the same exact rational sum.
  lemma EvaluateIgnoresPresentation(
    spec: Spec, other: Spec, views: seq<View>, others: seq<View>, active: seq<ModuleRef>, again: seq<ModuleRef>)
    requires Reordered(spec, other) && multiset(active) == multiset(again) && spec.params.decimals <= MAX_DECIMALS
    requires Represented(views, others) && DistinctViews(views) && FineViews(views) && FineViews(others)
    ensures SameResult(Evaluate(spec, views, active), Evaluate(other, others, again))
  {
    hide Evaluate, ExactSum, Rewritten, Fine, Reordered;
    var between: seq<View> :| RewrittenViews(views, between) && multiset(between) == multiset(others);
    SameMembers(between, others);
    forall i | 0 <= i < |between| ensures Fine(between[i].facts) {
      assert between[i] in others;
    }
    forall i, j | 0 <= i < j < |between| ensures between[i].moduleRef != between[j].moduleRef {
      assert views[i].moduleRef != views[j].moduleRef;
    }
    EvaluateRewritten(spec, views, between, active);
    EvaluateIgnoresOrder(spec, other, between, others, active, again);
  }
}
