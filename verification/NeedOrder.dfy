// Merging needs yields the same needs for every order they are asked in.
module NeedOrder {
  import opened Common
  import opened Core
  import opened Canonical
  import opened StateAdmission
  import opened StateNeeds

  // A fold over a non-empty list may start from any of its members.
  lemma AnyFirst(ladders: seq<Ladder>, rs: seq<Requirement>, k: nat)
    requires k < |rs| && AllValid(rs)
    ensures SameOutcome(FoldAsked(ladders, rs), FoldAsked(ladders, [rs[k]] + (rs[..k] + rs[k + 1..])))
  {
    hide Tighten, ValidRequirement;
    var moved := [rs[k]] + (rs[..k] + rs[k + 1..]);
    assert moved[1..] == rs[..k] + rs[k + 1..];
    if k == 0 {
      assert moved == rs;
    } else {
      var rest := rs[1..];
      assert rest[k - 1] == rs[k] && AllValid(rest);
      FoldFrontable(ladders, Ok(rs[0]), rest, k - 1);
      var tail := rest[..k - 1] + rest[k..];
      assert moved[1..] == [rs[0]] + tail;
      assert moved[1..][1..] == tail;
      TightenCommutes(ladders, rs[0], rs[k]);
      TightenAllSame(ladders, Tighten(ladders, rs[0], rs[k]), Tighten(ladders, rs[k], rs[0]), tail);
    }
  }

  lemma FoldAskedIgnoresOrder(ladders: seq<Ladder>, rs: seq<Requirement>, qs: seq<Requirement>)
    requires rs != [] && qs != [] && AllValid(rs) && AllValid(qs) && multiset(rs) == multiset(qs)
    ensures SameOutcome(FoldAsked(ladders, rs), FoldAsked(ladders, qs))
  {
    hide Tighten, ValidRequirement;
    assert rs[0] in multiset(rs);
    var k := TakeOut(qs, rs[0]);
    var rest := qs[..k] + qs[k + 1..];
    AnyFirst(ladders, qs, k);
    assert ([qs[k]] + rest)[1..] == rest;
    assert rs == [rs[0]] + rs[1..];
    assert multiset(rs[1..]) == multiset(rs) - multiset{rs[0]};
    FoldIgnoresOrder(ladders, Ok(rs[0]), rs[1..], rest);
  }

  lemma {:induction false} AskedConcat(xs: seq<Need>, ys: seq<Need>, key: string)
    ensures Asked(xs + ys, key) == Asked(xs, key) + Asked(ys, key)
    decreases |ys|
  {
    if ys == [] {
      assert xs + ys == xs;
    } else {
      var last := |ys| - 1;
      assert (xs + ys)[..|xs + ys| - 1] == xs + ys[..last];
      assert (xs + ys)[|xs + ys| - 1] == ys[last];
      AskedConcat(xs, ys[..last], key);
    }
  }

  lemma AskedMoves(needs: seq<Need>, key: string, k: nat)
    requires k < |needs|
    ensures multiset(Asked(needs, key))
         == multiset(Asked(needs[..k] + needs[k + 1..], key)) + (if needs[k].key == key then multiset{needs[k].requirement} else multiset{})
  {
    var one := [needs[k]];
    assert needs == needs[..k] + one + needs[k + 1..];
    AskedConcat(needs[..k] + one, needs[k + 1..], key);
    AskedConcat(needs[..k], one, key);
    AskedConcat(needs[..k], needs[k + 1..], key);
    assert one[..0] == [];
    assert Asked(one, key) == if needs[k].key == key then [needs[k].requirement] else [];
  }

  lemma {:induction false} AskedIgnoresOrder(xs: seq<Need>, ys: seq<Need>, key: string)
    requires multiset(xs) == multiset(ys)
    ensures multiset(Asked(xs, key)) == multiset(Asked(ys, key))
    decreases |xs|
  {
    assert |multiset(xs)| == |xs| && |multiset(ys)| == |ys|;
    if xs != [] {
      var last := |xs| - 1;
      assert xs[last] in multiset(xs);
      var k := TakeOut(ys, xs[last]);
      var rest := ys[..k] + ys[k + 1..];
      assert xs == xs[..last] + [xs[last]];
      assert multiset(xs[..last]) == multiset(xs) - multiset{xs[last]};
      AskedIgnoresOrder(xs[..last], rest, key);
      AskedMoves(ys, key, k);
      AskedMoves(xs, key, last);
      assert xs[..last] + xs[last + 1..] == xs[..last];
    }
  }

  lemma {:induction false} AskedValid(needs: seq<Need>, key: string)
    requires forall i :: 0 <= i < |needs| ==> ValidRequirement(needs[i].requirement)
    ensures AllValid(Asked(needs, key))
    decreases |needs|
  {
    hide ValidRequirement;
    if needs != [] {
      AskedValid(needs[..|needs| - 1], key);
    }
  }

  // ---- When merging succeeds -------------------------------------------------------------------

  ghost predicate GroupsFold(needs: seq<Need>) {
    forall i :: 0 <= i < |needs| ==> GroupFolds(needs, needs[i])
  }

  ghost predicate GroupFolds(needs: seq<Need>, n: Need) {
    Asked(needs, n.key) != [] && FoldAsked(n.ladders, Asked(needs, n.key)).Ok?
  }

  // Merging fails exactly when some group's requirements cannot all be combined.
  lemma {:induction false} MergeSucceeds(needs: seq<Need>)
    requires Coherent(needs)
    ensures MergeInto(needs).Ok? <==> GroupsFold(needs)
    decreases |needs|
  {
    hide Tighten, Coherent;
    if needs != [] {
      var before, n := needs[..|needs| - 1], needs[|needs| - 1];
      CoherentBefore(needs);
      MergeSucceeds(before);
      forall i | 0 <= i < |before| ensures GroupFolds(needs, needs[i]) ==> GroupFolds(before, before[i]) {
        GroupShrinks(needs, before[i]);
      }
      if MergeInto(before).Ok? {
        MergedKeys(before);
        LastStep(needs);
        if MergeInto(needs).Ok? {
          forall i | 0 <= i < |needs| ensures GroupFolds(needs, needs[i]) {
            MergedKeys(needs);
            assert HasKey(needs, needs[i].key);
            MergeMeaning(needs, needs[i].key);
          }
        } else {
          assert needs[|needs| - 1] == n;
        }
      }
    }
  }

  lemma GroupShrinks(needs: seq<Need>, b: Need)
    requires needs != [] && HasKey(needs[..|needs| - 1], b.key)
    ensures GroupFolds(needs, b) ==> GroupFolds(needs[..|needs| - 1], b)
  {
    hide Tighten;
    var before, n := needs[..|needs| - 1], needs[|needs| - 1];
    AskedWhen(before, b.key);
    if n.key == b.key {
      FoldAskedSnoc(b.ladders, Asked(before, b.key), n.requirement);
    } else {
      assert Asked(before, b.key) + [] == Asked(before, b.key);
    }
  }

  // The last need's step succeeds exactly when its own group still folds.
  lemma LastStep(needs: seq<Need>)
    requires needs != [] && Coherent(needs) && MergeInto(needs[..|needs| - 1]).Ok?
    ensures MergeInto(needs).Ok? <==> GroupFolds(needs, needs[|needs| - 1])
  {
    hide Tighten, Coherent;
    var before, n := needs[..|needs| - 1], needs[|needs| - 1];
    var m := MergeInto(before).value;
    CoherentBefore(needs);
    MergedKeys(before);
    AskedWhen(before, n.key);
    if n.key in m.byKey {
      MergeMeaning(before, n.key);
      LastAgrees(needs, n.key, m.byKey[n.key]);
      FoldAskedSnoc(n.ladders, Asked(before, n.key), n.requirement);
    } else {
      assert Asked(needs, n.key) == [n.requirement];
      assert [n.requirement][1..] == [];
    }
  }

  // ---- Order -----------------------------------------------------------------------------------

  predicate Admissible(needs: seq<Need>) {
    && Coherent(needs)
    && forall i :: 0 <= i < |needs| ==> ValidRequirement(needs[i].requirement) && Ascending(needs[i].sources, TextBytes)
  }

  lemma {:induction false} IntersectAscends(xs: seq<string>, ys: seq<string>)
    requires Ascending(xs, TextBytes)
    ensures Ascending(Intersect(xs, ys), TextBytes)
    ensures Intersect(xs, ys) != [] ==> xs != [] && (Intersect(xs, ys)[0] == xs[0] || Below(TextBytes(xs[0]), TextBytes(Intersect(xs, ys)[0])))
    decreases |xs|
  {
    hide TextBytes;
    if xs != [] {
      assert forall i :: 0 <= i < |xs[1..]| ==> xs[1..][i] == xs[i + 1];
      IntersectAscends(xs[1..], ys);
      var rest := Intersect(xs[1..], ys);
      if rest != [] {
        assert Below(TextBytes(xs[0]), TextBytes(xs[1]));
        if rest[0] != xs[1] {
          BelowTransitive(TextBytes(xs[0]), TextBytes(xs[1]), TextBytes(rest[0]));
        }
      }
      var out := Intersect(xs, ys);
      if xs[0] in ys {
        forall i | 0 < i < |out| ensures Below(TextBytes(out[i - 1]), TextBytes(out[i])) {
          assert out[i] == rest[i - 1];
          assert i > 1 ==> out[i - 1] == rest[i - 2];
        }
      }
    }
  }

  lemma {:induction false} MergedAscends(needs: seq<Need>)
    requires MergeInto(needs).Ok? && forall i :: 0 <= i < |needs| ==> Ascending(needs[i].sources, TextBytes)
    ensures forall k :: k in MergeInto(needs).value.byKey ==> Ascending(MergeInto(needs).value.byKey[k].sources, TextBytes)
    decreases |needs|
  {
    hide Tighten, TextBytes, Ascending;
    if needs != [] {
      var before, n := needs[..|needs| - 1], needs[|needs| - 1];
      MergedAscends(before);
      var m := MergeInto(before).value;
      if n.key in m.byKey {
        IntersectAscends(m.byKey[n.key].sources, n.sources);
      }
    }
  }

  lemma Permuted(xs: seq<Need>, ys: seq<Need>)
    requires multiset(xs) == multiset(ys) && Admissible(xs)
    ensures Admissible(ys)
  {
    forall i | 0 <= i < |ys| ensures exists k :: 0 <= k < |xs| && xs[k] == ys[i] {
      assert ys[i] in multiset(xs);
    }
    forall i, j | 0 <= i < |ys| && 0 <= j < |ys| ensures Together(ys[i], ys[j]) {
      var p :| 0 <= p < |xs| && xs[p] == ys[i];
      var q :| 0 <= q < |xs| && xs[q] == ys[j];
      assert Together(xs[p], xs[q]);
    }
  }

  lemma SucceedTogether(xs: seq<Need>, ys: seq<Need>)
    requires multiset(xs) == multiset(ys) && Admissible(xs) && Admissible(ys) && MergeInto(xs).Ok?
    ensures MergeInto(ys).Ok?
  {
    hide Tighten, ValidRequirement, Ascending;
    MergeSucceeds(xs);
    MergeSucceeds(ys);
    forall i | 0 <= i < |ys| ensures GroupFolds(ys, ys[i]) {
      assert ys[i] in multiset(xs);
      var p :| 0 <= p < |xs| && xs[p] == ys[i];
      assert GroupFolds(xs, xs[p]);
      AskedIgnoresOrder(xs, ys, ys[i].key);
      assert |multiset(Asked(xs, ys[i].key))| == |Asked(xs, ys[i].key)| && |multiset(Asked(ys, ys[i].key))| == |Asked(ys, ys[i].key)|;
      AskedValid(xs, ys[i].key);
      AskedValid(ys, ys[i].key);
      FoldAskedIgnoresOrder(ys[i].ladders, Asked(xs, ys[i].key), Asked(ys, ys[i].key));
    }
  }

  lemma SameParts(xs: seq<Need>, ys: seq<Need>, key: string, a: Need, b: Need)
    requires multiset(xs) == multiset(ys) && MergedFrom(xs, key, a) && MergedFrom(ys, key, b)
    requires AllValid(Asked(xs, key)) && AllValid(Asked(ys, key))
    ensures a.requirement == b.requirement && SameSubject(a, b)
    ensures forall s :: s in a.sources <==> s in b.sources
  {
    hide Tighten, ValidRequirement;
    AskedWhen(xs, key);
    var i :| 0 <= i < |xs| && xs[i].key == key;
    assert xs[i] in multiset(ys);
    var j :| 0 <= j < |ys| && ys[j] == xs[i];
    assert SameSubject(a, xs[i]) && SameSubject(b, ys[j]);
    AskedIgnoresOrder(xs, ys, key);
    FoldAskedIgnoresOrder(a.ladders, Asked(xs, key), Asked(ys, key));
    forall s ensures s in a.sources <==> s in b.sources {
      if s in a.sources {
        SourceSetsAgree(xs, ys, key, s);
      } else if s in b.sources {
        SourceSetsAgree(ys, xs, key, s);
      }
    }
  }

  lemma SameKeys(xs: seq<Need>, ys: seq<Need>, key: string)
    requires multiset(xs) == multiset(ys) && HasKey(xs, key)
    ensures HasKey(ys, key)
  {
    var i :| 0 <= i < |xs| && xs[i].key == key;
    assert xs[i] in multiset(ys);
    var j :| 0 <= j < |ys| && ys[j] == xs[i];
  }

  lemma SameMerged(xs: seq<Need>, ys: seq<Need>, key: string)
    requires multiset(xs) == multiset(ys) && Admissible(xs) && Admissible(ys) && MergeInto(xs).Ok? && MergeInto(ys).Ok?
    requires key in MergeInto(xs).value.byKey
    ensures key in MergeInto(ys).value.byKey && MergeInto(ys).value.byKey[key] == MergeInto(xs).value.byKey[key]
  {
    hide MergeInto, ValidRequirement, Ascending, MergedFrom, Coherent, HasKey, Kept;
    MergedKeys(xs);
    MergedKeys(ys);
    SameKeys(xs, ys, key);
    MergeMeaning(xs, key);
    MergeMeaning(ys, key);
    var a, b := MergeInto(xs).value.byKey[key], MergeInto(ys).value.byKey[key];
    AskedValid(xs, key);
    AskedValid(ys, key);
    SameParts(xs, ys, key, a, b);
    MergedAscends(xs);
    MergedAscends(ys);
    AscendingSameMembers(a.sources, b.sources, TextBytes);
    SameNeed(xs, ys, key, a, b);
  }

  lemma SameNeed(xs: seq<Need>, ys: seq<Need>, key: string, a: Need, b: Need)
    requires MergedFrom(xs, key, a) && MergedFrom(ys, key, b)
    requires a.requirement == b.requirement && SameSubject(a, b) && a.sources == b.sources
    ensures a == b
  {
  }

  lemma SourceSetsAgree(xs: seq<Need>, ys: seq<Need>, key: string, s: string)
    requires multiset(xs) == multiset(ys) && AskedOfSource(xs, key, s)
    ensures AskedOfSource(ys, key, s)
  {
    forall i | 0 <= i < |ys| && ys[i].key == key ensures s in ys[i].sources {
      assert ys[i] in multiset(xs);
      var p :| 0 <= p < |xs| && xs[p] == ys[i];
    }
  }

  lemma {:induction false} DistinctAscends(keys: seq<string>)
    requires Distinct(keys) && forall k :: k in keys ==> PlainText(k)
    ensures Ascending(Sort(keys, TextBytes), TextBytes)
  {
    SortSorts(keys, TextBytes);
    SortedAscendsUnlessDuplicate(Sort(keys, TextBytes), TextBytes);
    var sorted := Sort(keys, TextBytes);
    forall i | 0 < i < |sorted| ensures TextBytes(sorted[i - 1]) != TextBytes(sorted[i]) {
      if TextBytes(sorted[i - 1]) == TextBytes(sorted[i]) {
        TwiceIn(sorted, i - 1, i);
        var p, q := PositionsOf(keys, sorted[i - 1], sorted[i]);
        PlainTextInjective(keys[p], keys[q]);
        assert false;
      }
    }
  }

  // For every ordering of the same needs: the same merged list, or a refusal for all of them.
  lemma MergeIgnoresOrder(xs: seq<Need>, ys: seq<Need>)
    requires multiset(xs) == multiset(ys) && Admissible(xs)
    requires forall i :: 0 <= i < |xs| ==> PlainText(xs[i].key)
    ensures SameOutcome(MergeNeeds(xs), MergeNeeds(ys))
  {
    hide Tighten, ValidRequirement, MergeInto, Sort, Ascending, Admissible;
    Permuted(xs, ys);
    if MergeInto(xs).Ok? {
      SucceedTogether(xs, ys);
    } else if MergeInto(ys).Ok? {
      SucceedTogether(ys, xs);
    }
    if MergeInto(xs).Ok? {
      SameLists(xs, ys);
    }
  }

  lemma SameMaps(xs: seq<Need>, ys: seq<Need>)
    requires multiset(xs) == multiset(ys) && Admissible(xs) && Admissible(ys) && MergeInto(xs).Ok? && MergeInto(ys).Ok?
    ensures MergeInto(xs).value.byKey == MergeInto(ys).value.byKey
  {
    hide MergeInto, Admissible, MergeOne;
    var a, b := MergeInto(xs).value, MergeInto(ys).value;
    forall k ensures k in a.byKey <==> k in b.byKey
             ensures k in a.byKey && k in b.byKey ==> a.byKey[k] == b.byKey[k]
    {
      if k in a.byKey {
        SameMerged(xs, ys, k);
      } else if k in b.byKey {
        SameMerged(ys, xs, k);
      }
    }
  }

  lemma PlainKeys(needs: seq<Need>)
    requires MergeInto(needs).Ok? && forall i :: 0 <= i < |needs| ==> PlainText(needs[i].key)
    ensures forall k :: k in MergeInto(needs).value.keys ==> PlainText(k)
  {
    hide MergeInto, PlainText;
    MergedKeys(needs);
    forall k | k in MergeInto(needs).value.keys ensures PlainText(k) {
      assert HasKey(needs, k);
    }
  }

  lemma SameLists(xs: seq<Need>, ys: seq<Need>)
    requires multiset(xs) == multiset(ys) && Admissible(xs) && Admissible(ys) && MergeInto(xs).Ok? && MergeInto(ys).Ok?
    requires forall i :: 0 <= i < |xs| ==> PlainText(xs[i].key)
    ensures SameOutcome(MergeNeeds(xs), MergeNeeds(ys))
  {
    hide MergeInto, Sort, Ascending, Admissible, PlainText, TextBytes, HasKey;
    var a, b := MergeInto(xs).value, MergeInto(ys).value;
    SameMaps(xs, ys);
    MergedKeys(xs);
    MergedKeys(ys);
    SameLength(a.keys, b.keys);
    PlainKeys(xs);
    assert forall k :: k in b.keys ==> k in a.keys;
    DistinctAscends(a.keys);
    DistinctAscends(b.keys);
    SortedKeysKnown(xs);
    SortedKeysKnown(ys);
    AscendingSameMembers(Sort(a.keys, TextBytes), Sort(b.keys, TextBytes), TextBytes);
    if |a.keys| <= MAX_REQUIREMENTS {
      assert Listed(a, Sort(a.keys, TextBytes)) == Listed(b, Sort(b.keys, TextBytes));
    }
  }

  lemma SameLength(xs: seq<string>, ys: seq<string>)
    requires Distinct(xs) && Distinct(ys) && forall k :: k in xs <==> k in ys
    ensures |xs| == |ys|
  {
    DistinctCount(xs);
    DistinctCount(ys);
    assert (set k | k in xs) == (set k | k in ys);
  }

  lemma {:induction false} DistinctCount(xs: seq<string>)
    requires Distinct(xs)
    ensures |set k | k in xs| == |xs|
    decreases |xs|
  {
    if xs != [] {
      var rest, last := xs[..|xs| - 1], xs[|xs| - 1];
      assert last !in rest;
      DistinctCount(rest);
      assert (set k | k in xs) == (set k | k in rest) + {last};
    } else {
      assert (set k | k in xs) == {};
    }
  }
}
