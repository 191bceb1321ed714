// Needs, their merging and their admission (packages/control/src/admission.ts:161-200, 324-390).
module StateNeeds {
  import opened Common
  import opened Core
  import opened Canonical
  import opened StateAdmission

  datatype StatePolicy = StatePolicy(domain: string, stateKind: string, sources: seq<string>, requirements: seq<Requirement>)

  // One module's need; `key` is the text of (module digest, kind, subject).
  datatype Need = Need(
    moduleRef: ModuleRef, ladders: seq<Ladder>, stateKind: string, subject: Resource,
    sources: seq<string>, requirement: Requirement, key: string)

  predicate Applies(p: StatePolicy, n: Need) {
    p.domain == n.moduleRef.domainId && p.stateKind == n.stateKind
  }

  // ---- Effective needs -------------------------------------------------------------------------

  // The need after the policies that apply to it, one after the other.
  function EffectiveNeed(n: Need, policies: seq<StatePolicy>): Result<Need>
    decreases |policies|
  {
    if policies == [] then Ok(n)
    else if !Applies(policies[0], n) then EffectiveNeed(n, policies[1..])
    else match TightenAll(n.ladders, Ok(n.requirement), policies[0].requirements)
      case Refused(code) => Refused(code)
      case Ok(r) => EffectiveNeed(n.(sources := Intersect(n.sources, policies[0].sources), requirement := r), policies[1..])
  }

  method ApplyPolicies(n: Need, policies: seq<StatePolicy>) returns (r: Result<Need>)
    ensures r == EffectiveNeed(n, policies)
  {
    var requirement := n.requirement;
    var sources := n.sources;
    var i := 0;
    while i < |policies|
      invariant 0 <= i <= |policies|
      invariant EffectiveNeed(n, policies) == EffectiveNeed(n.(sources := sources, requirement := requirement), policies[i..])
    {
      var p := policies[i];
      var current := n.(sources := sources, requirement := requirement);
      if Applies(p, n) {
        sources := Intersect(sources, p.sources);
        var j := 0;
        while j < |p.requirements|
          invariant 0 <= j <= |p.requirements|
          invariant TightenAll(n.ladders, Ok(current.requirement), p.requirements)
                 == TightenAll(n.ladders, Ok(requirement), p.requirements[j..])
        {
          var t := Tighten(n.ladders, requirement, p.requirements[j]);
          if t.Refused? {
            TightenAllRefused(n.ladders, t, p.requirements[j..][1..]);
            return Refused(t.code);
          }
          requirement := t.value;
          j := j + 1;
        }
      }
      i := i + 1;
    }
    r := Ok(n.(sources := sources, requirement := requirement));
  }

  predicate PolicyAdmits(p: StatePolicy, n: Need, o: Observed, ctx: Context) {
    Applies(p, n) ==> o.sourceId in p.sources && forall i :: 0 <= i < |p.requirements| ==> Admits(o, p.requirements[i], p.sources, n.ladders, ctx)
  }

  lemma SourcesNarrow(o: Observed, r: Requirement, xs: seq<string>, ys: seq<string>, ladders: seq<Ladder>, ctx: Context)
    ensures Admits(o, r, Intersect(xs, ys), ladders, ctx) <==> Admits(o, r, xs, ladders, ctx) && o.sourceId in ys
  {
    IntersectMembers(xs, ys, o.sourceId);
  }

  // An observation passes the effective need exactly when it passes the need and every applicable policy.
  lemma {:induction false} EffectiveNeedAgrees(n: Need, policies: seq<StatePolicy>, o: Observed, ctx: Context)
    requires EffectiveNeed(n, policies).Ok?
    ensures var e := EffectiveNeed(n, policies).value;
            && e.(sources := n.sources, requirement := n.requirement) == n
            && (Admits(o, e.requirement, e.sources, n.ladders, ctx)
                <==> Admits(o, n.requirement, n.sources, n.ladders, ctx)
                     && forall k :: 0 <= k < |policies| ==> PolicyAdmits(policies[k], n, o, ctx))
    decreases |policies|
  {
    if policies != [] {
      var p := policies[0];
      hide Assess, Tighten;
      assert forall k :: 0 <= k < |policies| ==> policies[k] == if k == 0 then p else policies[1..][k - 1];
      if !Applies(p, n) {
        EffectiveNeedAgrees(n, policies[1..], o, ctx);
      } else {
        var r := TightenAll(n.ladders, Ok(n.requirement), p.requirements).value;
        var m := n.(sources := Intersect(n.sources, p.sources), requirement := r);
        EffectiveNeedAgrees(m, policies[1..], o, ctx);
        SourcesNarrow(o, r, n.sources, p.sources, n.ladders, ctx);
        FoldAgrees(n.ladders, n.requirement, p.requirements, n.sources, o, ctx);
        PolicySources(p, n, o, ctx);
        assert forall k :: 0 <= k < |policies[1..]| ==> (PolicyAdmits(policies[1..][k], m, o, ctx) <==> PolicyAdmits(policies[k + 1], n, o, ctx));
        assert (forall k :: 0 <= k < |policies| ==> PolicyAdmits(policies[k], n, o, ctx))
          <==> PolicyAdmits(p, n, o, ctx) && forall k :: 0 <= k < |policies[1..]| ==> PolicyAdmits(policies[1..][k], n, o, ctx);
      }
    }
  }

  // With the source admitted by both lists, which list is asked does not matter.
  lemma PolicySources(p: StatePolicy, n: Need, o: Observed, ctx: Context)
    requires Applies(p, n)
    ensures o.sourceId in n.sources && o.sourceId in p.sources ==>
              forall i :: 0 <= i < |p.requirements| ==>
                (Admits(o, p.requirements[i], p.sources, n.ladders, ctx) <==> Admits(o, p.requirements[i], n.sources, n.ladders, ctx))
    ensures Admits(o, n.requirement, n.sources, n.ladders, ctx) ==> o.sourceId in n.sources
  {
  }

  // ---- Merging ---------------------------------------------------------------------------------

  const MAX_REQUIREMENTS: nat := 64

  // The map of the merging loop, with its keys in insertion order.
  datatype Merged = Merged(keys: seq<string>, byKey: map<string, Need>)

  function MergeOne(m: Merged, n: Need): Result<Merged> {
    if n.key !in m.byKey then Ok(Merged(m.keys + [n.key], m.byKey[n.key := n]))
    else
      var prev := m.byKey[n.key];
      match Tighten(n.ladders, prev.requirement, n.requirement)
      case Refused(code) => Refused(code)
      case Ok(r) => Ok(Merged(m.keys, m.byKey[n.key := prev.(requirement := r, sources := Intersect(prev.sources, n.sources))]))
  }

  function MergeInto(needs: seq<Need>): Result<Merged>
    decreases |needs|
  {
    if needs == [] then Ok(Merged([], map[]))
    else match MergeInto(needs[..|needs| - 1])
      case Refused(code) => Refused(code)
      case Ok(m) => MergeOne(m, needs[|needs| - 1])
  }
  function Listed(m: Merged, keys: seq<string>): seq<Need>
    requires forall k :: k in keys ==> k in m.byKey
  {
    seq(|keys|, i requires 0 <= i < |keys| => m.byKey[keys[i]])
  }

  predicate HasKey(needs: seq<Need>, key: string) {
    exists i :: 0 <= i < |needs| && needs[i].key == key
  }

  lemma HasKeySnoc(needs: seq<Need>, key: string)
    requires needs != []
    ensures HasKey(needs, key) <==> needs[|needs| - 1].key == key || HasKey(needs[..|needs| - 1], key)
  {
    var before := needs[..|needs| - 1];
    if HasKey(before, key) {
      var i :| 0 <= i < |before| && before[i].key == key;
      assert needs[i].key == key;
    }
    if HasKey(needs, key) {
      var i :| 0 <= i < |needs| && needs[i].key == key;
      assert i < |before| ==> before[i].key == key;
    }
  }

  predicate Distinct(keys: seq<string>) {
    forall i, j :: 0 <= i < j < |keys| ==> keys[i] != keys[j]
  }

  ghost predicate Kept(m: Merged) {
    && Distinct(m.keys)
    && (forall k :: k in m.keys <==> k in m.byKey)
    && (forall k :: k in m.byKey ==> m.byKey[k].key == k)
  }

  lemma MergeOneKeeps(m: Merged, n: Need)
    requires Kept(m) && MergeOne(m, n).Ok?
    ensures Kept(MergeOne(m, n).value)
    ensures forall k :: k in MergeOne(m, n).value.byKey <==> k == n.key || k in m.byKey
  {
    hide Tighten;
    if n.key !in m.byKey {
      assert forall k :: k in m.keys + [n.key] <==> k in m.keys || k == n.key;
      assert n.key !in m.keys;
    }
  }

  lemma {:induction false} MergedKeys(needs: seq<Need>)
    requires MergeInto(needs).Ok?
    ensures Kept(MergeInto(needs).value)
    ensures forall k :: k in MergeInto(needs).value.byKey <==> HasKey(needs, k)
    decreases |needs|
  {
    hide MergeOne, Kept, HasKey;
    if needs == [] {
      NothingKept();
    } else {
      var before, n := needs[..|needs| - 1], needs[|needs| - 1];
      MergedKeys(before);
      MergeOneKeeps(MergeInto(before).value, n);
      forall k ensures HasKey(needs, k) <==> n.key == k || HasKey(before, k) {
        HasKeySnoc(needs, k);
      }
    }
  }

  lemma NothingKept()
    ensures Kept(Merged([], map[])) && forall k :: !HasKey([], k)
  {
  }

  lemma SortedKeysKnown(needs: seq<Need>)
    requires MergeInto(needs).Ok?
    ensures var m := MergeInto(needs).value;
            forall k :: k in Sort(m.keys, TextBytes) <==> k in m.byKey
  {
    MergedKeys(needs);
    var m := MergeInto(needs).value;
    SortSorts(m.keys, TextBytes);
    forall k ensures k in Sort(m.keys, TextBytes) <==> k in m.byKey {
      assert k in Sort(m.keys, TextBytes) <==> k in multiset(Sort(m.keys, TextBytes));
      assert k in m.keys <==> k in multiset(m.keys);
    }
  }

  // Needs of one key become one: their meet, over the sources they share, listed by key.
  function MergeNeeds(needs: seq<Need>): Result<seq<Need>> {
    match MergeInto(needs)
    case Refused(code) => Refused(code)
    case Ok(m) =>
      if |m.keys| > MAX_REQUIREMENTS then Refused("TOO_MANY_REQUIREMENTS")
      else
        SortedKeysKnown(needs);
        Ok(Listed(m, Sort(m.keys, TextBytes)))
  }

  method MergeAll(needs: seq<Need>) returns (r: Result<seq<Need>>)
    ensures r == MergeNeeds(needs)
  {
    hide Tighten, Sort;
    var keys: seq<string> := [];
    var byKey: map<string, Need> := map[];
    var i := 0;
    while i < |needs|
      invariant 0 <= i <= |needs|
      invariant MergeInto(needs[..i]) == Ok(Merged(keys, byKey))
    {
      var n := needs[i];
      assert needs[..i + 1][..i] == needs[..i];
      assert MergeInto(needs[..i + 1]) == MergeOne(Merged(keys, byKey), n);
      if n.key !in byKey {
        keys := keys + [n.key];
        byKey := byKey[n.key := n];
      } else {
        var prev := byKey[n.key];
        var t := Tighten(n.ladders, prev.requirement, n.requirement);
        if t.Refused? {
          RefusedStays(needs, i + 1);
          return Refused(t.code);
        }
        byKey := byKey[n.key := prev.(requirement := t.value, sources := Intersect(prev.sources, n.sources))];
      }
      i := i + 1;
    }
    assert needs[..i] == needs;
    if |keys| > MAX_REQUIREMENTS {
      return Refused("TOO_MANY_REQUIREMENTS");
    }
    SortedKeysKnown(needs);
    var sorted := Sort(keys, TextBytes);
    var out: seq<Need> := [];
    var j := 0;
    while j < |sorted|
      invariant 0 <= j <= |sorted| && |out| == j
      invariant forall k :: 0 <= k < j ==> out[k] == byKey[sorted[k]]
    {
      out := out + [byKey[sorted[j]]];
      j := j + 1;
    }
    assert out == Listed(Merged(keys, byKey), sorted);
    r := Ok(out);
  }

  lemma {:induction false} RefusedStays(needs: seq<Need>, i: nat)
    requires i <= |needs| && MergeInto(needs[..i]).Refused?
    ensures MergeInto(needs) == MergeInto(needs[..i])
    decreases |needs| - i
  {
    if i < |needs| {
      assert needs[..i + 1][..i] == needs[..i];
      RefusedStays(needs, i + 1);
    } else {
      assert needs[..i] == needs;
    }
  }

  // ---- What merging means ----------------------------------------------------------------------

  // The requirements asked under one key, in order.
  function Asked(needs: seq<Need>, key: string): seq<Requirement>
    decreases |needs|
  {
    if needs == [] then []
    else
      var n := needs[|needs| - 1];
      Asked(needs[..|needs| - 1], key) + (if n.key == key then [n.requirement] else [])
  }

  predicate AskedOfSource(needs: seq<Need>, key: string, s: string) {
    forall i :: 0 <= i < |needs| && needs[i].key == key ==> s in needs[i].sources
  }

  predicate Together(a: Need, b: Need) {
    a.key == b.key ==> a.moduleRef == b.moduleRef && a.ladders == b.ladders && a.stateKind == b.stateKind && a.subject == b.subject
  }

  // One key names one module, kind and subject.
  predicate Coherent(needs: seq<Need>) {
    forall i, j :: 0 <= i < |needs| && 0 <= j < |needs| ==> Together(needs[i], needs[j])
  }

  function FoldAsked(ladders: seq<Ladder>, rs: seq<Requirement>): Result<Requirement>
    requires rs != []
  {
    TightenAll(ladders, Ok(rs[0]), rs[1..])
  }

  lemma {:induction false} FoldSnoc(ladders: seq<Ladder>, x: Result<Requirement>, rs: seq<Requirement>, r: Requirement)
    ensures TightenAll(ladders, x, rs + [r]) == Then(ladders, TightenAll(ladders, x, rs), r)
    decreases |rs|
  {
    if rs == [] {
      assert [] + [r] == [r] && [r][1..] == [];
    } else {
      assert (rs + [r])[0] == rs[0] && (rs + [r])[1..] == rs[1..] + [r];
      FoldSnoc(ladders, Then(ladders, x, rs[0]), rs[1..], r);
    }
  }

  lemma {:induction false} AskedWhen(needs: seq<Need>, key: string)
    ensures Asked(needs, key) != [] <==> HasKey(needs, key)
    decreases |needs|
  {
    if needs != [] {
      AskedWhen(needs[..|needs| - 1], key);
      HasKeySnoc(needs, key);
    }
  }

  lemma FoldAskedSnoc(ladders: seq<Ladder>, rs: seq<Requirement>, r: Requirement)
    requires rs != []
    ensures FoldAsked(ladders, rs + [r]) == Then(ladders, FoldAsked(ladders, rs), r)
  {
    assert (rs + [r])[0] == rs[0] && (rs + [r])[1..] == rs[1..] + [r];
    FoldSnoc(ladders, Ok(rs[0]), rs[1..], r);
  }

  // Same module, ladders, kind and subject.
  predicate SameSubject(a: Need, b: Need) {
    a.moduleRef == b.moduleRef && a.ladders == b.ladders && a.stateKind == b.stateKind && a.subject == b.subject
  }

  predicate AllOver(needs: seq<Need>, key: string, n: Need) {
    forall i :: 0 <= i < |needs| && needs[i].key == key ==> SameSubject(n, needs[i])
  }

  // A merged need: its members' common identity, the fold of their requirements, their common sources.
  ghost predicate MergedFrom(needs: seq<Need>, key: string, n: Need) {
    && AllOver(needs, key, n)
    && n.key == key
    && Asked(needs, key) != []
    && FoldAsked(n.ladders, Asked(needs, key)) == Ok(n.requirement)
    && (forall s :: s in n.sources <==> AskedOfSource(needs, key, s))
  }

  lemma AllOverSnoc(needs: seq<Need>, key: string, n: Need)
    requires needs != [] && AllOver(needs[..|needs| - 1], key, n)
    requires needs[|needs| - 1].key == key ==> SameSubject(n, needs[|needs| - 1])
    ensures AllOver(needs, key, n)
  {
    var before := needs[..|needs| - 1];
    forall i | 0 <= i < |needs| && needs[i].key == key ensures SameSubject(n, needs[i]) {
      assert i < |before| ==> before[i].key == key;
    }
  }

  // A need under a key already merged tightens it.
  lemma MergeNext(needs: seq<Need>, key: string, prev: Need, next: Need)
    requires needs != [] && MergedFrom(needs[..|needs| - 1], key, prev)
    requires var n := needs[|needs| - 1];
             if n.key == key
             then SameSubject(prev, n) && Tighten(n.ladders, prev.requirement, n.requirement) == Ok(next.requirement)
                  && next == prev.(requirement := next.requirement, sources := Intersect(prev.sources, n.sources))
             else next == prev
    ensures MergedFrom(needs, key, next)
  {
    hide Tighten, SameSubject;
    var before, n := needs[..|needs| - 1], needs[|needs| - 1];
    assert SameSubject(next, n) || n.key != key by {
      SubjectKept(prev, next, n);
    }
    AllOverKept(before, key, prev, next);
    AllOverSnoc(needs, key, next);
    forall s ensures s in next.sources <==> AskedOfSource(needs, key, s) {
      SourcesSnoc(needs, key, s);
      IntersectMembers(prev.sources, n.sources, s);
    }
    assert prev.ladders == n.ladders || n.key != key by {
      SubjectKept(prev, next, n);
    }
    if n.key == key {
      FoldAskedSnoc(n.ladders, Asked(before, key), n.requirement);
    } else {
      assert Asked(before, key) + [] == Asked(before, key);
    }
  }

  lemma SubjectKept(prev: Need, next: Need, n: Need)
    requires next == prev.(requirement := next.requirement, sources := next.sources)
    ensures SameSubject(prev, n) ==> SameSubject(next, n) && prev.ladders == n.ladders
  {
  }

  lemma AllOverKept(needs: seq<Need>, key: string, prev: Need, next: Need)
    requires AllOver(needs, key, prev) && next == prev.(requirement := next.requirement, sources := next.sources)
    ensures AllOver(needs, key, next)
  {
  }

  // A need under a new key starts its own.
  lemma MergeFirst(needs: seq<Need>, key: string)
    requires needs != [] && needs[|needs| - 1].key == key && !HasKey(needs[..|needs| - 1], key)
    ensures MergedFrom(needs, key, needs[|needs| - 1])
  {
    var before, n := needs[..|needs| - 1], needs[|needs| - 1];
    AskedWhen(before, key);
    assert Asked(needs, key) == [n.requirement];
    assert [n.requirement][1..] == [];
    forall i | 0 <= i < |before| ensures needs[i].key != key {
      assert before[i].key != key;
    }
    assert FoldAsked(n.ladders, [n.requirement]) == Ok(n.requirement);
    forall s ensures s in n.sources <==> AskedOfSource(needs, key, s) {
      if s in n.sources {
        assert AskedOfSource(needs, key, s);
      }
    }
  }

  lemma CoherentBefore(needs: seq<Need>)
    requires Coherent(needs) && needs != []
    ensures Coherent(needs[..|needs| - 1])
  {
    var before := needs[..|needs| - 1];
    forall i, j | 0 <= i < |before| && 0 <= j < |before| ensures Together(before[i], before[j]) {
      assert Together(needs[i], needs[j]);
    }
  }

  lemma {:induction false} MergeMeaning(needs: seq<Need>, key: string)
    requires Coherent(needs) && MergeInto(needs).Ok? && key in MergeInto(needs).value.byKey
    ensures MergedFrom(needs, key, MergeInto(needs).value.byKey[key])
    decreases |needs|
  {
    hide Tighten, MergedFrom, HasKey, Coherent, Kept;
    var before, n := needs[..|needs| - 1], needs[|needs| - 1];
    var m := MergeInto(before).value;
    CoherentBefore(needs);
    MergedKeys(before);
    if key in m.byKey {
      MergeMeaning(before, key);
      if n.key == key {
        LastAgrees(needs, key, m.byKey[key]);
      }
      MergeNext(needs, key, m.byKey[key], MergeInto(needs).value.byKey[key]);
    } else {
      MergeFirst(needs, key);
    }
  }

  lemma LastAgrees(needs: seq<Need>, key: string, prev: Need)
    requires Coherent(needs) && needs != [] && needs[|needs| - 1].key == key
    requires MergedFrom(needs[..|needs| - 1], key, prev)
    ensures SameSubject(prev, needs[|needs| - 1])
  {
    var before := needs[..|needs| - 1];
    AskedWhen(before, key);
    var i :| 0 <= i < |before| && before[i].key == key;
    assert SameSubject(prev, before[i]) && Together(needs[i], needs[|needs| - 1]);
  }

  lemma SourcesSnoc(needs: seq<Need>, key: string, s: string)
    requires needs != []
    ensures var before, n := needs[..|needs| - 1], needs[|needs| - 1];
            AskedOfSource(needs, key, s) <==> AskedOfSource(before, key, s) && (n.key == key ==> s in n.sources)
  {
    var before := needs[..|needs| - 1];
    if AskedOfSource(needs, key, s) {
      forall i | 0 <= i < |before| && before[i].key == key ensures s in before[i].sources {
        assert needs[i].key == key;
      }
    }
    if AskedOfSource(before, key, s) && (needs[|before|].key == key ==> s in needs[|before|].sources) {
      forall i | 0 <= i < |needs| && needs[i].key == key ensures s in needs[i].sources {
        if i < |before| {
          assert before[i].key == key;
        }
      }
    }
  }

  lemma {:induction false} AskedAdmit(needs: seq<Need>, key: string, o: Observed, xs: seq<string>, ladders: seq<Ladder>, ctx: Context)
    ensures (forall i :: 0 <= i < |Asked(needs, key)| ==> Admits(o, Asked(needs, key)[i], xs, ladders, ctx))
       <==> forall i :: 0 <= i < |needs| && needs[i].key == key ==> Admits(o, needs[i].requirement, xs, ladders, ctx)
    decreases |needs|
  {
    hide Assess;
    if needs != [] {
      var before, n := needs[..|needs| - 1], needs[|needs| - 1];
      AskedAdmit(before, key, o, xs, ladders, ctx);
      var rs, tail := Asked(before, key), if n.key == key then [n.requirement] else [];
      assert Asked(needs, key) == rs + tail;
      assert forall i :: 0 <= i < |rs| ==> Asked(needs, key)[i] == rs[i];
      if n.key == key {
        assert Asked(needs, key)[|rs|] == n.requirement;
      }
      assert forall i :: 0 <= i < |before| ==> before[i] == needs[i];
    }
  }

  // An observation passes a merged need exactly when it passes every need that was merged into it.
  lemma MergeAgrees(needs: seq<Need>, key: string, o: Observed, ctx: Context)
    requires Coherent(needs) && MergeInto(needs).Ok? && key in MergeInto(needs).value.byKey
    ensures var n := MergeInto(needs).value.byKey[key];
            (Admits(o, n.requirement, n.sources, n.ladders, ctx)
             <==> forall i :: 0 <= i < |needs| && needs[i].key == key ==> Admits(o, needs[i].requirement, needs[i].sources, n.ladders, ctx))
  {
    MergeMeaning(needs, key);
    var n := MergeInto(needs).value.byKey[key];
    var rs := Asked(needs, key);
    var here := [o.sourceId];
    FoldAgrees(n.ladders, rs[0], rs[1..], here, o, ctx);
    AskedAdmit(needs, key, o, here, n.ladders, ctx);
    assert forall i :: 0 < i < |rs| ==> rs[i] == rs[1..][i - 1];
    SourceOnly(o, n.requirement, n.sources, n.ladders, ctx);
    forall i | 0 <= i < |needs|
      ensures Admits(o, needs[i].requirement, needs[i].sources, n.ladders, ctx)
         <==> Admits(o, needs[i].requirement, here, n.ladders, ctx) && o.sourceId in needs[i].sources
    {
      SourceOnly(o, needs[i].requirement, needs[i].sources, n.ladders, ctx);
    }
    AskedWhen(needs, key);
    hide Assess;
    FirstAndRest(rs, o, here, n.ladders, ctx);
  }

  lemma FirstAndRest(rs: seq<Requirement>, o: Observed, xs: seq<string>, ladders: seq<Ladder>, ctx: Context)
    requires rs != []
    ensures (forall i :: 0 <= i < |rs| ==> Admits(o, rs[i], xs, ladders, ctx))
       <==> Admits(o, rs[0], xs, ladders, ctx) && forall i :: 0 <= i < |rs[1..]| ==> Admits(o, rs[1..][i], xs, ladders, ctx)
  {
    hide Assess;
    assert forall i :: 0 <= i < |rs[1..]| ==> rs[1..][i] == rs[i + 1];
    assert forall i :: 0 < i < |rs| ==> rs[i] == rs[1..][i - 1];
  }

  lemma SourceOnly(o: Observed, r: Requirement, xs: seq<string>, ladders: seq<Ladder>, ctx: Context)
    ensures Admits(o, r, xs, ladders, ctx) <==> Admits(o, r, [o.sourceId], ladders, ctx) && o.sourceId in xs
  {
  }
}
