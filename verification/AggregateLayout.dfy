// The bytes of an aggregate's parameters, written out (packages/control/src/aggregate.ts:136-149).
module AggregateLayout {
  import opened Common
  import opened Core
  import opened Canonical
  import opened Codec
  import opened CodecSets
  import opened Wire
  import opened Layout
  import opened AggregateCodec
  import Objects
  import A = Aggregate

  // The same contributors, those with the lesser bytes first.
  predicate InOrder(refs: seq<ModuleRef>, of: seq<ModuleRef>) {
    && multiset(refs) == multiset(of)
    && forall i, j :: 0 <= i < j < |refs| ==> Before(LayModule(refs[i]), LayModule(refs[j]))
  }

  lemma ListedAscends(refs: seq<ModuleRef>, of: seq<ModuleRef>)
    requires InOrder(refs, of) && forall i :: 0 <= i < |of| ==> ModuleCodec().valid(of[i])
    ensures forall i :: 0 <= i < |refs| ==> ModuleCodec().valid(refs[i])
    ensures Ascending(refs, ModuleCodec().write)
  {
    var c := ModuleCodec();
    forall i | 0 <= i < |refs| ensures c.valid(refs[i]) && c.write(refs[i]) == LayModule(refs[i]) {
      assert refs[i] in multiset(of);
      ModuleIs(refs[i]);
    }
    forall i | 0 < i < |refs| ensures Below(c.write(refs[i - 1]), c.write(refs[i])) {
      BelowIs(LayModule(refs[i - 1]), LayModule(refs[i]));
    }
  }

  // Ordered by their bytes, distinct contributors have one listing, and it is the one written.
  lemma SortedAsListed(refs: seq<ModuleRef>, of: seq<ModuleRef>)
    requires InOrder(refs, of) && A.DistinctRefs(of) && forall i :: 0 <= i < |of| ==> ModuleCodec().valid(of[i])
    ensures Sort(of, ModuleCodec().write) == refs
  {
    var c := ModuleCodec();
    ModuleGood();
    ListedAscends(refs, of);
    DistinctModulesSort(c, of);
    SortSorts(of, c.write);
    AscendingUnique(Sort(of, c.write), refs, c.write);
  }

  lemma HeadFits(p: A.Params)
    requires ValidHead(p)
    ensures QuantityBoundShape().valid((p.kind, (p.unit, (p.decimals, p.limit))))
  {
    HeadIsValid(p);
    var parts := (p.kind, (p.unit, (p.decimals, p.limit)));
    PairIs(Objects.TagText(), Pair(UInt(2), HeadCodec()), PARAMS_TAG, (1, parts));
    PairIs(UInt(2), HeadCodec(), 1, parts);
    hide Pair, UInt, TextCodec, Enumerated;
  }

  lemma HeadIs(p: A.Params)
    requires ValidHead(p)
    ensures EncodeHead(p)
         == Layout.Text("mandate-core/v1/control/aggregate-params") + U(1, 2) + QuantityByte(p.kind) + Layout.Text(p.unit)
            + U(p.decimals, 1) + U(p.limit, 32)
  {
    var q := QuantityBound(p.kind, p.unit, p.decimals, p.limit);
    HeadFits(p);
    QuantityPartsAre(q);
    HeaderIs(PARAMS_TAG, HeadCodec(), QuantityBoundParts(q));
    hide Layout.Text, U, QuantityByte, Pair, UInt, TextCodec, Enumerated, QuantityBoundShape, ValidHead;
    SixJoin(Layout.Text(PARAMS_TAG), U(1, 2), QuantityByte(p.kind), Layout.Text(p.unit), U(p.decimals, 1), U(p.limit, 32));
  }

  lemma SixJoin(a: Bytes, b: Bytes, c: Bytes, d: Bytes, e: Bytes, f: Bytes)
    ensures a + b + (c + d + e + f) == a + b + c + d + e + f
  {
  }

  // Tag and version, the quantity's kind, unit, scale and limit, and the counted contributors.
  lemma ParamsAre(p: A.Params, refs: seq<ModuleRef>)
    requires ValidHead(p) && A.DistinctRefs(p.contributors) && InOrder(refs, p.contributors)
    requires forall i :: 0 <= i < |p.contributors| ==> ModuleCodec().valid(p.contributors[i])
    ensures EncodeParams(p)
         == Layout.Text("mandate-core/v1/control/aggregate-params") + U(1, 2) + QuantityByte(p.kind) + Layout.Text(p.unit)
            + U(p.decimals, 1) + U(p.limit, 32) + Counted(refs, LayModule)
  {
    HeadIs(p);
    SortedAsListed(refs, p.contributors);
    ListedAscends(refs, p.contributors);
    forall i | 0 <= i < |refs| ensures ModuleCodec().write(refs[i]) == LayModule(refs[i]) {
      ModuleIs(refs[i]);
    }
    ItemsAre(ModuleCodec(), refs, LayModule);
    DigitsAre(|refs|, 2);
    assert |refs| == |multiset(refs)| == |p.contributors|;
  }
}
