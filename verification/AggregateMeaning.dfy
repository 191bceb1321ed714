// What an aggregate's verdict says, over the facts and the snapshots they cite (packages/control/src/aggregate.ts:240-382).
module AggregateMeaning {
  import opened Common
  import opened Core
  import opened Decimals
  import opened StateAdmission
  import opened StateBindings
  import opened Aggregate

  // ---- The facts that count ----------------------------------------------------------------------

  // A fact of the aggregate's own measure: its kind, its unit, exactly its asset.
  predicate Counts(spec: Spec, f: Fact) {
    f.kind == spec.params.kind && f.unit == spec.params.unit && f.asset.Some? && f.asset.value == spec.asset
  }

  // A place among the participants' facts where a contributor projects one.
  predicate Counted(spec: Spec, views: seq<View>, i: nat, j: nat) {
    && i < |views| && j < |views[i].facts| && Counts(spec, views[i].facts[j])
    && exists k :: 0 <= k < |spec.params.contributors| && spec.params.contributors[k] == views[i].moduleRef
  }

  predicate Consulted(views: seq<View>, m: ModuleRef) {
    exists i :: 0 <= i < |views| && views[i].moduleRef == m
  }

  // ---- Scope -------------------------------------------------------------------------------------

  // Nobody but a contributor projects a fact that counts, and every contributor and every active module was consulted.
  ghost predicate InScope(spec: Spec, views: seq<View>, active: seq<ModuleRef>) {
    && (forall i: nat, j: nat :: i < |views| && j < |views[i].facts| && Counts(spec, views[i].facts[j]) ==> Counted(spec, views, i, j))
    && (forall k :: 0 <= k < |spec.params.contributors| ==> Consulted(views, spec.params.contributors[k]))
    && forall k :: 0 <= k < |active| ==> Consulted(views, active[k])
  }

  lemma {:induction false} FindIs(views: seq<View>, m: ModuleRef)
    ensures Find(views, m).Some? <==> Consulted(views, m)
    decreases |views|
  {
    if views != [] && views[0].moduleRef != m {
      FindIs(views[1..], m);
      if Consulted(views[1..], m) {
        var i :| 0 <= i < |views[1..]| && views[1..][i].moduleRef == m;
        assert views[i + 1].moduleRef == m;
      }
      if Consulted(views, m) {
        var i :| 0 <= i < |views| && views[i].moduleRef == m;
        assert views[1..][i - 1].moduleRef == m;
      }
    }
  }

  lemma {:induction false} MatchingIs(spec: Spec, facts: seq<Fact>)
    ensures MatchingFacts(spec, facts) != [] <==> exists j :: 0 <= j < |facts| && Counts(spec, facts[j])
    ensures forall f :: f in MatchingFacts(spec, facts) <==> f in facts && Counts(spec, f)
    decreases |facts|
  {
    if facts != [] {
      var rest := facts[1..];
      MatchingIs(spec, rest);
      assert forall f :: f in facts <==> f == facts[0] || f in rest;
      assert MatchingFacts(spec, facts) == (if Matches(spec, facts[0]) then [facts[0]] else []) + MatchingFacts(spec, rest);
      if j :| 0 <= j < |rest| && Counts(spec, rest[j]) {
        assert Counts(spec, facts[j + 1]);
      }
      if j :| 0 <= j < |facts| && Counts(spec, facts[j]) {
        assert j > 0 ==> Counts(spec, rest[j - 1]);
      }
    }
  }

  lemma ContributorIs(spec: Spec, views: seq<View>, i: nat)
    requires i < |views|
    ensures Contributor(spec, views[i].moduleRef) <==>
              exists k :: 0 <= k < |spec.params.contributors| && spec.params.contributors[k] == views[i].moduleRef
  {
  }

  // The scope check passes exactly when the scope is closed, and a refusal names what opens it.
  lemma ScopeExactly(spec: Spec, views: seq<View>, active: seq<ModuleRef>)
    ensures CheckScope(spec, views, active).None? <==> InScope(spec, views, active)
    ensures CheckScope(spec, views, active) == Some("UNDECLARED_CONTRIBUTOR") <==>
              exists i: nat, j: nat :: i < |views| && j < |views[i].facts| && Counts(spec, views[i].facts[j]) && !Counted(spec, views, i, j)
    ensures CheckScope(spec, views, active) == Some("CONTRIBUTOR_UNAVAILABLE") ==>
              exists k :: 0 <= k < |spec.params.contributors| && !Consulted(views, spec.params.contributors[k])
    ensures CheckScope(spec, views, active) == Some("UNDECLARED_MODULE_UNAVAILABLE") ==>
              exists k :: 0 <= k < |active| && !Consulted(views, active[k])
  {
    hide MatchingFacts, Find, Consulted;
    forall m ensures Find(views, m).Some? <==> Consulted(views, m) {
      FindIs(views, m);
    }
    forall i | 0 <= i < |views|
      ensures MatchingFacts(spec, views[i].facts) != [] <==> exists j :: 0 <= j < |views[i].facts| && Counts(spec, views[i].facts[j])
    {
      MatchingIs(spec, views[i].facts);
    }
    if i :| 0 <= i < |views| && !Contributor(spec, views[i].moduleRef) && MatchingFacts(spec, views[i].facts) != [] {
      var j :| 0 <= j < |views[i].facts| && Counts(spec, views[i].facts[j]);
      assert !Counted(spec, views, i, j);
    } else {
      forall i: nat, j: nat | i < |views| && j < |views[i].facts| && Counts(spec, views[i].facts[j]) ensures Counted(spec, views, i, j) {
        ContributorIs(spec, views, i);
      }
    }
  }

  // ---- One reading of the price ------------------------------------------------------------------

  predicate Marked(f: Fact) {
    f.valuation.Some? && f.valuation.value.basis.MARK?
  }

  // A mark cites a snapshot admitted to its participant, of the aggregate's own asset, observed when the mark says.
  predicate Cites(spec: Spec, f: Fact, admitted: set<Envelope>) {
    Marked(f) ==>
      && f.valuation.value.source.FromState?
      && var e := f.valuation.value.source.state;
         e in admitted && e.subject == spec.asset && e.subject.kind.CANONICAL_ASSET? && e.observedAt == f.valuation.value.observedAt
  }

  // Two marks of one reading: the same source, at the same point of it, at the same time, and the same price.
  predicate SameReading(f: Fact, g: Fact) {
    Marked(f) && f.valuation.value.source.FromState? && Marked(g) && g.valuation.value.source.FromState? ==>
      && f.valuation.value.source.state.sourceId == g.valuation.value.source.state.sourceId
      && f.valuation.value.source.state.sequence == g.valuation.value.source.state.sequence
      && f.valuation.value.source.state.observedAt == g.valuation.value.source.state.observedAt
      && f.valuation.value.price == g.valuation.value.price
  }

  // Every fact that counts cites as it must, all marks are of one reading, and all of them are marked or none is.
  ghost predicate OneReading(spec: Spec, views: seq<View>) {
    && (forall i: nat, j: nat :: Counted(spec, views, i, j) ==> Cites(spec, views[i].facts[j], views[i].admitted))
    && (forall i: nat, j: nat, k: nat, n: nat :: Counted(spec, views, i, j) && Counted(spec, views, k, n) ==>
          && SameReading(views[i].facts[j], views[k].facts[n])
          && (Marked(views[i].facts[j]) <==> Marked(views[k].facts[n])))
  }

  // The same of a list of cited facts.
  predicate ListReads(spec: Spec, cited: seq<Cited>) {
    && (forall i :: 0 <= i < |cited| ==> Cites(spec, cited[i].fact, cited[i].admitted))
    && (forall i, j :: 0 <= i < |cited| && 0 <= j < |cited| ==> SameReading(cited[i].fact, cited[j].fact))
  }

  predicate Scanned(spec: Spec, cited: seq<Cited>, s: Scan) {
    && (s.marked > 0 <==> exists i :: 0 <= i < |cited| && Marked(cited[i].fact))
    && (s.unmarked > 0 <==> exists i :: 0 <= i < |cited| && !Marked(cited[i].fact))
    && (s.context.Some? <==> s.marked > 0)
    && forall i :: 0 <= i < |cited| && Marked(cited[i].fact) && cited[i].fact.valuation.value.source.FromState? && s.context.Some? ==>
         ReadAt(cited[i].fact, s.context.value)
  }

  predicate ReadAt(f: Fact, k: ValuationContext)
    requires Marked(f) && f.valuation.value.source.FromState?
  {
    var e := f.valuation.value.source.state;
    k.source == e.sourceId && k.sequence == e.sequence && k.observedAt == e.observedAt && k.price == f.valuation.value.price
  }

  lemma ContextIs(spec: Spec, f: Fact, admitted: set<Envelope>)
    ensures ContextOf(spec, f, admitted).Ok? <==> Cites(spec, f, admitted)
    ensures ContextOf(spec, f, admitted).Ok? ==> (ContextOf(spec, f, admitted).value.Some? <==> Marked(f))
    ensures ContextOf(spec, f, admitted).Ok? && Marked(f) ==> ReadAt(f, ContextOf(spec, f, admitted).value.value)
  {
  }

  lemma ListSnoc(spec: Spec, front: seq<Cited>, last: Cited)
    ensures ListReads(spec, front + [last]) <==>
              && ListReads(spec, front) && Cites(spec, last.fact, last.admitted)
              && forall i :: 0 <= i < |front| ==> SameReading(front[i].fact, last.fact) && SameReading(last.fact, front[i].fact)
  {
    hide Cites, SameReading;
    var all := front + [last];
    assert all[|front|] == last && forall i :: 0 <= i < |front| ==> all[i] == front[i];
    if ListReads(spec, all) {
      forall i | 0 <= i < |front| ensures Cites(spec, front[i].fact, front[i].admitted)
                                  ensures SameReading(front[i].fact, last.fact) && SameReading(last.fact, front[i].fact) {
        assert Cites(spec, all[i].fact, all[i].admitted) && SameReading(all[i].fact, all[|front|].fact) && SameReading(all[|front|].fact, all[i].fact);
      }
      forall i, j | 0 <= i < |front| && 0 <= j < |front| ensures SameReading(front[i].fact, front[j].fact) {
        assert SameReading(all[i].fact, all[j].fact);
      }
    }
    if ListReads(spec, front) && Cites(spec, last.fact, last.admitted) && forall i :: 0 <= i < |front| ==> SameReading(front[i].fact, last.fact) && SameReading(last.fact, front[i].fact) {
      assert SameReading(last.fact, last.fact) by {
        SelfReading(last.fact);
      }
    }
  }

  lemma SelfReading(f: Fact)
    ensures SameReading(f, f)
  {
  }

  // The scan goes through exactly when all it passed cites as it must and is of one reading.
  lemma {:induction false} ScanExactly(spec: Spec, cited: seq<Cited>)
    ensures ScanAll(spec, cited).Ok? <==> ListReads(spec, cited)
    ensures ScanAll(spec, cited).Ok? ==> Scanned(spec, cited, ScanAll(spec, cited).value)
    decreases |cited|
  {
    hide ContextOf, ListReads, Cites;
    if cited == [] {
      assert ListReads(spec, cited) by {
        NothingRead(spec, cited);
      }
    } else {
      var front, last := cited[..|cited| - 1], cited[|cited| - 1];
      assert cited == front + [last];
      ScanExactly(spec, front);
      ContextIs(spec, last.fact, last.admitted);
      ListSnoc(spec, front, last);
      if ScanAll(spec, front).Ok? && Cites(spec, last.fact, last.admitted) {
        ScanLast(spec, front, last, ScanAll(spec, front).value);
      }
    }
  }

  lemma NothingRead(spec: Spec, cited: seq<Cited>)
    requires cited == []
    ensures ListReads(spec, cited)
  {
  }

  lemma ScanLast(spec: Spec, front: seq<Cited>, last: Cited, s: Scan)
    requires ListReads(spec, front) && Scanned(spec, front, s) && Cites(spec, last.fact, last.admitted)
    ensures ScanOne(spec, s, last).Ok? <==>
              forall i :: 0 <= i < |front| ==> SameReading(front[i].fact, last.fact) && SameReading(last.fact, front[i].fact)
    ensures ScanOne(spec, s, last).Ok? ==> Scanned(spec, front + [last], ScanOne(spec, s, last).value)
  {
    hide ContextOf;
    ContextIs(spec, last.fact, last.admitted);
    var all := front + [last];
    assert all[|front|] == last && forall i :: 0 <= i < |front| ==> all[i] == front[i];
    if Marked(last.fact) && s.context.Some? {
      var i :| 0 <= i < |front| && Marked(front[i].fact);
      assert Cites(spec, front[i].fact, front[i].admitted) && ReadAt(front[i].fact, s.context.value);
      var k := ContextOf(spec, last.fact, last.admitted).value.value;
      if SameReading(front[i].fact, last.fact) {
        assert s.context.value == k;
      }
    }
    var one := ScanOne(spec, s, last);
    if one.Ok? {
      ScannedSnoc(spec, front, last, s, one.value);
    }
  }

  lemma ScannedSnoc(spec: Spec, front: seq<Cited>, last: Cited, s: Scan, t: Scan)
    requires Scanned(spec, front, s) && Cites(spec, last.fact, last.admitted) && ScanOne(spec, s, last) == Ok(t)
    ensures Scanned(spec, front + [last], t)
  {
    hide ContextOf;
    ContextIs(spec, last.fact, last.admitted);
    var all := front + [last];
    assert all[|front|] == last && forall i :: 0 <= i < |front| ==> all[i] == front[i];
    if i :| 0 <= i < |all| && Marked(all[i].fact) {
      assert i < |front| ==> Marked(front[i].fact);
    }
    if i :| 0 <= i < |all| && !Marked(all[i].fact) {
      assert i < |front| ==> !Marked(front[i].fact);
    }
    if i :| 0 <= i < |front| && Marked(front[i].fact) {
      assert Marked(all[i].fact);
    }
    if i :| 0 <= i < |front| && !Marked(front[i].fact) {
      assert !Marked(all[i].fact);
    }
  }

  // ---- The list of cited facts is the facts that count -------------------------------------------

  predicate IsCounted(spec: Spec, views: seq<View>, c: Cited, i: nat, j: nat) {
    Counted(spec, views, i, j) && c == Cited(views[i].facts[j], views[i].admitted)
  }

  lemma {:induction false} CitedAre(spec: Spec, views: seq<View>)
    ensures forall c :: c in AllCited(spec, views) <==> exists i: nat, j: nat :: IsCounted(spec, views, c, i, j)
    decreases |views|
  {
    hide MatchingFacts;
    if views != [] {
      var front, last := views[..|views| - 1], views[|views| - 1];
      CitedAre(spec, front);
      forall c ensures c in AllCited(spec, views) <==> exists i: nat, j: nat :: IsCounted(spec, views, c, i, j) {
        LastCited(spec, views, c, |front|);
        if i: nat, j: nat :| IsCounted(spec, front, c, i, j) {
          assert views[i] == front[i] && IsCounted(spec, views, c, i, j);
        }
        if i: nat, j: nat :| IsCounted(spec, views, c, i, j) {
          assert i < |front| ==> front[i] == views[i] && IsCounted(spec, front, c, i, j);
        }
      }
    }
  }

  lemma LastCited(spec: Spec, views: seq<View>, c: Cited, n: nat)
    requires n + 1 == |views|
    ensures c in CitedBy(spec, views[n]) <==> exists j: nat :: IsCounted(spec, views, c, n, j)
  {
    var last := views[n];
    MatchingIs(spec, last.facts);
    ContributorIs(spec, views, n);
    var facts := MatchingFacts(spec, last.facts);
    hide MatchingFacts;
    if c in CitedBy(spec, last) {
      var k :| 0 <= k < |facts| && c == Cited(facts[k], last.admitted);
      assert facts[k] in last.facts;
      var j :| 0 <= j < |last.facts| && last.facts[j] == facts[k];
      assert IsCounted(spec, views, c, n, j);
    }
    if j: nat :| IsCounted(spec, views, c, n, j) {
      assert last.facts[j] in facts;
      var k :| 0 <= k < |facts| && facts[k] == last.facts[j];
      assert Cite(facts, last.admitted)[k] == c;
    }
  }

  // The valuation check passes exactly when everything that counts is of one reading of the aggregate's own asset.
  lemma ValuationsExactly(spec: Spec, views: seq<View>)
    ensures CheckValuations(spec, views).None? <==> OneReading(spec, views)
  {
    hide AllCited, ScanAll, Cites, SameReading, Marked, Counted;
    var cited := AllCited(spec, views);
    CitedAre(spec, views);
    ScanExactly(spec, cited);
    if OneReading(spec, views) {
      ReadsAsList(spec, views, cited);
    }
    if CheckValuations(spec, views).None? {
      ListAsReads(spec, views, cited);
    }
  }

  lemma ReadsAsList(spec: Spec, views: seq<View>, cited: seq<Cited>)
    requires OneReading(spec, views) && forall c :: c in cited <==> exists i: nat, j: nat :: IsCounted(spec, views, c, i, j)
    ensures ListReads(spec, cited)
    ensures forall a, b :: 0 <= a < |cited| && 0 <= b < |cited| ==> (Marked(cited[a].fact) <==> Marked(cited[b].fact))
  {
    hide Cites, SameReading, Marked;
    forall a, b | 0 <= a < |cited| && 0 <= b < |cited|
      ensures Cites(spec, cited[a].fact, cited[a].admitted) && SameReading(cited[a].fact, cited[b].fact)
      ensures Marked(cited[a].fact) <==> Marked(cited[b].fact)
    {
      assert cited[a] in cited && cited[b] in cited;
      var i: nat, j: nat :| IsCounted(spec, views, cited[a], i, j);
      var k: nat, n: nat :| IsCounted(spec, views, cited[b], k, n);
    }
    if cited != [] {
      assert cited[0] in cited;
    }
  }

  lemma ListAsReads(spec: Spec, views: seq<View>, cited: seq<Cited>)
    requires ListReads(spec, cited) && forall c :: c in cited <==> exists i: nat, j: nat :: IsCounted(spec, views, c, i, j)
    requires !((exists a :: 0 <= a < |cited| && Marked(cited[a].fact)) && exists a :: 0 <= a < |cited| && !Marked(cited[a].fact))
    ensures OneReading(spec, views)
  {
    hide Cites, SameReading, Marked;
    forall i: nat, j: nat, k: nat, n: nat | Counted(spec, views, i, j) && Counted(spec, views, k, n)
      ensures Cites(spec, views[i].facts[j], views[i].admitted) && SameReading(views[i].facts[j], views[k].facts[n])
      ensures Marked(views[i].facts[j]) <==> Marked(views[k].facts[n])
    {
      var a := PlaceIn(spec, views, cited, i, j);
      var b := PlaceIn(spec, views, cited, k, n);
      assert Cites(spec, cited[a].fact, cited[a].admitted) && SameReading(cited[a].fact, cited[b].fact);
    }
    forall i: nat, j: nat | Counted(spec, views, i, j) ensures Cites(spec, views[i].facts[j], views[i].admitted) {
      var a := PlaceIn(spec, views, cited, i, j);
    }
  }

  lemma PlaceIn(spec: Spec, views: seq<View>, cited: seq<Cited>, i: nat, j: nat) returns (a: nat)
    requires Counted(spec, views, i, j) && forall c :: c in cited <==> exists i: nat, j: nat :: IsCounted(spec, views, c, i, j)
    ensures a < |cited| && cited[a] == Cited(views[i].facts[j], views[i].admitted)
  {
    var x := Cited(views[i].facts[j], views[i].admitted);
    assert IsCounted(spec, views, x, i, j);
    assert x in cited;
    a :| 0 <= a < |cited| && cited[a] == x;
  }

  // ---- The total ---------------------------------------------------------------------------------

  // All that one participant projects of the measure, in units of 10^-38.
  function ProjectedTotal(spec: Spec, facts: seq<Fact>): int
    requires Fine(facts)
  {
    if facts == [] then 0
    else
      var last := facts[|facts| - 1];
      ProjectedTotal(spec, facts[..|facts| - 1]) + if Counts(spec, last) then last.atoms * Pow10(MAX_DECIMALS - last.decimals) else 0
  }

  // The first participant under a module's name.
  predicate SpeaksFor(views: seq<View>, m: ModuleRef, i: nat) {
    i < |views| && views[i].moduleRef == m && forall j :: 0 <= j < i ==> views[j].moduleRef != m
  }

  // A list of totals, one per contributor: what its participant projects.
  ghost predicate AreTotals(spec: Spec, views: seq<View>, totals: seq<int>)
    requires FineViews(views)
  {
    && |totals| == |spec.params.contributors|
    && forall k :: 0 <= k < |totals| ==> IsTotal(spec, views, spec.params.contributors[k], totals[k])
  }

  ghost predicate IsTotal(spec: Spec, views: seq<View>, m: ModuleRef, total: int)
    requires FineViews(views)
  {
    exists i: nat :: SpeaksFor(views, m, i) && total == ProjectedTotal(spec, views[i].facts)
  }

  function Sum(xs: seq<int>): int {
    if xs == [] then 0 else Sum(xs[..|xs| - 1]) + xs[|xs| - 1]
  }

  lemma {:induction false} MatchingSplit(spec: Spec, facts: seq<Fact>)
    requires facts != []
    ensures MatchingFacts(spec, facts) == MatchingFacts(spec, facts[..|facts| - 1])
              + (if Matches(spec, facts[|facts| - 1]) then [facts[|facts| - 1]] else [])
    decreases |facts|
  {
    if |facts| > 1 {
      assert facts[1..][..|facts[1..]| - 1] == facts[..|facts| - 1][1..];
      MatchingSplit(spec, facts[1..]);
    } else {
      assert facts[..0] == [] && facts[1..] == [];
    }
  }

  lemma {:induction false} ProjectedIs(spec: Spec, facts: seq<Fact>)
    requires Fine(facts)
    ensures Fine(MatchingFacts(spec, facts)) && Exactly(MatchingFacts(spec, facts)) == ProjectedTotal(spec, facts)
    decreases |facts|
  {
    if facts != [] {
      var front, last := facts[..|facts| - 1], facts[|facts| - 1];
      ProjectedIs(spec, front);
      MatchingSplit(spec, facts);
      var before := MatchingFacts(spec, front);
      hide MatchingFacts;
      if Matches(spec, last) {
        assert (before + [last])[..|before|] == before;
      } else {
        assert before + [] == before;
      }
    }
  }

  lemma {:induction false} FindFirst(views: seq<View>, m: ModuleRef) returns (i: nat)
    requires Consulted(views, m)
    ensures SpeaksFor(views, m, i) && Find(views, m) == Some(views[i])
    decreases |views|
  {
    if views[0].moduleRef == m {
      i := 0;
    } else {
      FindIs(views, m);
      FindIs(views[1..], m);
      var k := FindFirst(views[1..], m);
      i := k + 1;
      forall j | 0 <= j < i ensures views[j].moduleRef != m {
        assert j > 0 ==> views[j] == views[1..][j - 1];
      }
    }
  }

  lemma TotalIs(spec: Spec, views: seq<View>, m: ModuleRef, i: nat)
    requires FineViews(views) && SpeaksFor(views, m, i)
    ensures ModuleTotal(spec, views, m) == ProjectedTotal(spec, views[i].facts)
  {
    hide MatchingFacts;
    FindIs(views, m);
    var k := FindFirst(views, m);
    assert k == i;
    ProjectedIs(spec, views[i].facts);
  }

  lemma {:induction false} TotalsAdd(spec: Spec, views: seq<View>, ms: seq<ModuleRef>, totals: seq<int>)
    requires FineViews(views) && |totals| == |ms|
    requires forall k :: 0 <= k < |ms| ==> IsTotal(spec, views, ms[k], totals[k])
    ensures SumOf(ms, Totals(spec, views)) == Sum(totals)
    decreases |ms|
  {
    hide ModuleTotal, ProjectedTotal;
    if ms != [] {
      var n := |ms| - 1;
      assert forall k :: 0 <= k < n ==> ms[..n][k] == ms[k] && totals[..n][k] == totals[k];
      TotalsAdd(spec, views, ms[..n], totals[..n]);
      var i: nat :| SpeaksFor(views, ms[n], i) && totals[n] == ProjectedTotal(spec, views[i].facts);
      TotalIs(spec, views, ms[n], i);
    }
  }

  lemma {:induction false} TotalsExist(spec: Spec, views: seq<View>, ms: seq<ModuleRef>) returns (totals: seq<int>)
    requires FineViews(views) && forall k :: 0 <= k < |ms| ==> Consulted(views, ms[k])
    ensures |totals| == |ms|
    ensures forall k :: 0 <= k < |ms| ==> IsTotal(spec, views, ms[k], totals[k])
    decreases |ms|
  {
    hide ProjectedTotal;
    totals := [];
    if ms != [] {
      var n := |ms| - 1;
      var before := TotalsExist(spec, views, ms[..n]);
      var i := FindFirst(views, ms[n]);
      assert IsTotal(spec, views, ms[n], ProjectedTotal(spec, views[i].facts));
      totals := before + [ProjectedTotal(spec, views[i].facts)];
      assert forall k :: 0 <= k < n ==> ms[..n][k] == ms[k] && totals[k] == before[k];
    }
  }

  // What was observed is the total itself, at the stated scale.
  predicate Observes(e: Evaluation, total: int) {
    e.decimals <= MAX_DECIMALS && e.observed * Pow10(MAX_DECIMALS - e.decimals) == total
  }

  lemma SumObserves(spec: Spec, views: seq<View>)
    requires spec.params.decimals <= MAX_DECIMALS && FineViews(views)
    requires forall k :: 0 <= k < |spec.params.contributors| ==> Find(views, spec.params.contributors[k]).Some?
    ensures Observes(SumAggregate(spec, views), SumOf(spec.params.contributors, Totals(spec, views)))
  {
    hide Included, SumOf, Totals, Widest, SumAt, LimitAt, FineViews, Pow10;
    var cs := spec.params.contributors;
    IncludedTotal(spec, views, cs);
    var facts := Included(spec, views, cs);
    WidestBound(spec.params.decimals, facts);
    var scale := Widest(spec.params.decimals, facts);
    SumAtShifts(facts, scale, MAX_DECIMALS - scale);
  }

  // An aggregate is evaluated exactly when its scope is closed and everything that counts is of one reading; it then holds
  // exactly when the contributors' exact total is within the limit, and states that total.
  lemma EvaluatesExactly(spec: Spec, views: seq<View>, active: seq<ModuleRef>, totals: seq<int>)
    requires spec.params.decimals <= MAX_DECIMALS && FineViews(views)
    ensures Evaluate(spec, views, active).outcome.UNKNOWN? <==> !(InScope(spec, views, active) && OneReading(spec, views))
    ensures !Evaluate(spec, views, active).outcome.UNKNOWN? && AreTotals(spec, views, totals) ==>
              && (Evaluate(spec, views, active).outcome.HOLDS? <==> Sum(totals) <= spec.params.limit * Pow10(MAX_DECIMALS - spec.params.decimals))
              && Observes(Evaluate(spec, views, active), Sum(totals))
  {
    hide CheckScope, CheckValuations, InScope, OneReading, SumAggregate, AreTotals, Observes, FineViews, Sum, Pow10, Counted, Counts, Consulted;
    ScopeExactly(spec, views, active);
    ValuationsExactly(spec, views);
    if InScope(spec, views, active) {
      SumsExactly(spec, views, active, totals);
    }
  }

  lemma SumsExactly(spec: Spec, views: seq<View>, active: seq<ModuleRef>, totals: seq<int>)
    requires spec.params.decimals <= MAX_DECIMALS && FineViews(views) && InScope(spec, views, active)
    ensures !SumAggregate(spec, views).outcome.UNKNOWN?
    ensures AreTotals(spec, views, totals) ==>
              && (SumAggregate(spec, views).outcome.HOLDS? <==> Sum(totals) <= spec.params.limit * Pow10(MAX_DECIMALS - spec.params.decimals))
              && Observes(SumAggregate(spec, views), Sum(totals))
  {
    hide SumAggregate, InScope, ProjectedTotal, Find, Consulted, IsTotal, SumOf, Totals, Sum, Pow10;
    ScopeFinds(spec, views, active);
    SumVerdict(spec, views);
    SumObserves(spec, views);
    if AreTotals(spec, views, totals) {
      TotalsAdd(spec, views, spec.params.contributors, totals);
    }
  }

  lemma ScopeFinds(spec: Spec, views: seq<View>, active: seq<ModuleRef>)
    requires InScope(spec, views, active)
    ensures forall k :: 0 <= k < |spec.params.contributors| ==> Find(views, spec.params.contributors[k]).Some?
  {
    hide Counted, Counts;
    forall k | 0 <= k < |spec.params.contributors| ensures Find(views, spec.params.contributors[k]).Some? {
      FindIs(views, spec.params.contributors[k]);
    }
  }

  // Such totals always exist, so the statement above is about every evaluation there is.
  lemma TotalsOf(spec: Spec, views: seq<View>, active: seq<ModuleRef>) returns (totals: seq<int>)
    requires FineViews(views) && InScope(spec, views, active)
    ensures AreTotals(spec, views, totals)
  {
    totals := TotalsExist(spec, views, spec.params.contributors);
  }

  // ---- The comparator ----------------------------------------------------------------------------

  // The same measure, every contributor of the parent's also the child's.
  predicate SameMeasure(p: Params, c: Params) {
    p.kind == c.kind && p.unit == c.unit
  }

  predicate CountsAll(p: Params, c: Params) {
    forall m :: m in p.contributors ==> m in c.contributors
  }

  // A child with more contributors, or fewer, than a parent of a kind that may be negative.
  predicate SignedUneven(p: Params, c: Params) {
    (p.kind.POSITION_SIZE? || p.kind.NET_EXPOSURE? || p.kind.PNL?) && |c.contributors| != |p.contributors|
  }

  predicate LimitWithin(p: Params, c: Params)
    requires p.decimals <= MAX_DECIMALS && c.decimals <= MAX_DECIMALS
  {
    c.limit * Pow10(MAX_DECIMALS - c.decimals) <= p.limit * Pow10(MAX_DECIMALS - p.decimals)
  }

  // The comparator, answer by answer.
  lemma ComparesExactly(p: Params, c: Params)
    requires p.decimals <= MAX_DECIMALS && c.decimals <= MAX_DECIMALS
    ensures Compare(p, c) == NO_WEAKER <==> SameMeasure(p, c) && CountsAll(p, c) && !SignedUneven(p, c) && LimitWithin(p, c)
    ensures Compare(p, c) == WEAKER <==> SameMeasure(p, c) && (!CountsAll(p, c) || (!SignedUneven(p, c) && !LimitWithin(p, c)))
    ensures Compare(p, c) == UNPROVABLE <==> !SameMeasure(p, c) || (CountsAll(p, c) && SignedUneven(p, c))
  {
    hide LimitAt, Pow10;
    LimitsCompareExactly(p, c);
    assert Covers(p, c) <==> CountsAll(p, c) by {
      if Covers(p, c) {
        forall m | m in p.contributors ensures m in c.contributors {
          var i :| 0 <= i < |p.contributors| && p.contributors[i] == m;
        }
      }
    }
  }
}
