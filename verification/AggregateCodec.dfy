// The parameter bytes an aggregate term carries (packages/control/src/aggregate.ts:136-180).
module AggregateCodec {
  import opened Common
  import opened Core
  import opened Canonical
  import opened Codec
  import opened CodecSets
  import opened Wire
  import Objects
  import A = Aggregate
  import S = AggregateSafety

  const PARAMS_TAG: string := "mandate-core/v1/control/aggregate-params"

  type Head = (QuantityKind, (string, (int, int)))

  function HeadCodec(): Codec<Head> {
    QuantityBoundShape()
  }

  function ParamsOf(h: Head, contributors: seq<ModuleRef>): A.Params {
    A.Params(h.0, h.1.0, Natural(h.1.1.0), h.1.1.1, contributors)
  }

  // The contributors come as an ascending list whose members are validated but, unlike a set term's, not made
  // canonical again afterwards.
  function DecodeParams(bytes: Bytes): Option<Decoded<A.Params>> {
    match Pair(Objects.TagText(), Pair(UInt(2), HeadCodec())).read(bytes)
    case None => None
    case Some(d) =>
      if d.value.0 != PARAMS_TAG || d.value.1.0 != 1 || d.used > |bytes| then None
      else match ReadList(ModuleCodec(), A.MAX_AGGREGATE_CONTRIBUTORS, bytes[d.used..])
        case None => None
        case Some(l) =>
          var p := ParamsOf(d.value.1.1, l.value);
          if d.used + l.used != |bytes| || p.decimals > MAX_DECIMALS || l.value == [] then None
          else Some(Decoded(p, |bytes|, d.marks + l.marks))
  }

  function EncodeHead(p: A.Params): Bytes {
    Pair(Objects.TagText(), Pair(UInt(2), HeadCodec())).write((PARAMS_TAG, (1, (p.kind, (p.unit, (p.decimals, p.limit))))))
  }

  predicate ValidHead(p: A.Params) {
    p.unit != "" && ValidUnit(p.unit) && p.decimals <= MAX_DECIMALS && 0 <= p.limit < Base(32)
  }

  // Contributors sorted by encoding.
  function EncodeParams(p: A.Params): Bytes {
    EncodeHead(p) + (BigEndian(|p.contributors|, 2) + WriteItems(ModuleCodec(), Sort(p.contributors, ModuleCodec().write)))
  }

  lemma HeadGood()
    ensures Good(Pair(Objects.TagText(), Pair(UInt(2), HeadCodec())))
  {
    EnumeratedGood(QUANTITY_KINDS);
    TextGood(ValidUnit);
    TextGood(Always);
    UIntGood(1);
    UIntGood(2);
    UIntGood(32);
    hide Good;
    PairGood(UInt(1), UInt(32));
    PairGood(TextCodec(ValidUnit), Pair(UInt(1), UInt(32)));
    PairGood(Enumerated(QUANTITY_KINDS), Pair(TextCodec(ValidUnit), Pair(UInt(1), UInt(32))));
    PairGood(UInt(2), HeadCodec());
    PairGood(Objects.TagText(), Pair(UInt(2), HeadCodec()));
  }

  // Without a byte-order mark the decoded contributors are distinct, so the comparator is sound for such a parent.
  lemma PlainParamsAreSound(bytes: Bytes)
    requires DecodeParams(bytes).Some? && DecodeParams(bytes).value.marks == 0
    ensures A.DistinctRefs(DecodeParams(bytes).value.value.contributors) && A.Orderable(DecodeParams(bytes).value.value)
  {
    var c := ModuleCodec();
    var d := Pair(Objects.TagText(), Pair(UInt(2), HeadCodec())).read(bytes).value;
    var rest := bytes[d.used..];
    ModuleGood();
    hide Good, ModuleCodec;
    ListAccepted(c, A.MAX_AGGREGATE_CONTRIBUTORS, rest);
    var refs := ReadList(c, A.MAX_AGGREGATE_CONTRIBUTORS, rest).value.value;
    forall i, j | 0 <= i < j < |refs| ensures refs[i] != refs[j] {
      AscendingAcross(refs, c.write, i, j);
      OrderEqual(c.write(refs[i]), c.write(refs[j]));
    }
  }

  // One reference, and the same reference with a byte-order mark before its domain.
  function MarkedModule(m: ModuleRef): Bytes {
    MarkedText(m.domainId) + Pair(Ident(), Pair(UInt(4), DigestCodec(true))).write((m.moduleId, (m.version, m.digest)))
  }

  lemma ModuleFits(m: ModuleRef)
    requires ModuleCodec().valid(m)
    ensures |m.domainId| <= 128 && Ident().valid(m.domainId)
    ensures Pair(Ident(), Pair(UInt(4), DigestCodec(true))).valid((m.moduleId, (m.version, m.digest)))
  {
    assert ModuleShape().valid(ModuleParts(m));
    assert Ident().valid(m.domainId);
    assert ValidIdentifier(m.domainId);
  }

  lemma ModuleTailGood()
    ensures Good(Pair(Ident(), Pair(UInt(4), DigestCodec(true))))
  {
    IdentGood();
    UIntGood(4);
    DigestGood(true);
    hide Good;
    PairGood(UInt(4), DigestCodec(true));
    PairGood(Ident(), Pair(UInt(4), DigestCodec(true)));
  }

  lemma MarkedShapeReads(m: ModuleRef, rest: Bytes)
    requires ModuleCodec().valid(m)
    ensures ModuleShape().read(MarkedModule(m) + rest) == Some(Decoded(ModuleParts(m), |MarkedModule(m)|, 1))
  {
    var tail := Pair(Ident(), Pair(UInt(4), DigestCodec(true)));
    var parts := (m.moduleId, (m.version, m.digest));
    ModuleTailGood();
    ModuleFits(m);
    hide Good, ModuleCodec, Pair, UInt, DigestCodec, ValidIdentifier, MarkedText;
    Decodes(tail, parts, rest);
    MarkedTextDecodes(ValidIdentifier, m.domainId, tail.write(parts) + rest);
    SplitReads(Ident(), tail, MarkedText(m.domainId), tail.write(parts), rest, m.domainId, parts);
  }

  lemma MarkedModuleReads(m: ModuleRef, rest: Bytes)
    requires ModuleCodec().valid(m)
    ensures ModuleCodec().read(MarkedModule(m) + rest) == Some(Decoded(m, |MarkedModule(m)|, 1))
  {
    MarkedShapeReads(m, rest);
    hide ModuleShape, MarkedModule;
    assert Always(m);
  }

  lemma SplitReads<T(!new), U(!new)>(a: Codec<T>, b: Codec<U>, first: Bytes, second: Bytes, rest: Bytes, x: T, y: U)
    requires a.read(first + (second + rest)) == Some(Decoded(x, |first|, 1))
    requires b.read(second + rest) == Some(Decoded(y, |second|, 0))
    ensures Pair(a, b).read(first + second + rest) == Some(Decoded((x, y), |first + second|, 1))
  {
    assert first + (second + rest) == first + second + rest;
    assert (first + second + rest)[|first|..] == second + rest;
  }

  lemma Joined(p: A.Params, head: Bytes, list: Bytes, refs: seq<ModuleRef>, marks: nat)
    requires p.decimals <= MAX_DECIMALS && refs != []
    requires Pair(Objects.TagText(), Pair(UInt(2), HeadCodec())).read(head + list)
          == Some(Decoded((PARAMS_TAG, (1, (p.kind, (p.unit, (p.decimals, p.limit))))), |head|, 0))
    requires ReadList(ModuleCodec(), A.MAX_AGGREGATE_CONTRIBUTORS, list) == Some(Decoded(refs, |list|, marks))
    ensures DecodeParams(head + list) == Some(Decoded(p.(contributors := refs), |head + list|, marks))
  {
    hide ReadList, ModuleCodec, Pair;
    assert (head + list)[|head|..] == list;
  }

  lemma EveryKindHasACode(k: QuantityKind)
    ensures k in QUANTITY_KINDS
  {
    var all := QUANTITY_KINDS;
    assert all[0] == TOKEN_AMOUNT && all[1] == CAPITAL && all[2] == POSITION_SIZE && all[3] == NOTIONAL;
    assert all[4] == GROSS_EXPOSURE && all[5] == NET_EXPOSURE && all[6] == MARGIN && all[7] == COLLATERAL;
    assert all[8] == DEBT && all[9] == PNL && all[10] == COUNT;
  }

  lemma HeadIsValid(p: A.Params)
    requires ValidHead(p)
    ensures Pair(Objects.TagText(), Pair(UInt(2), HeadCodec())).valid((PARAMS_TAG, (1, (p.kind, (p.unit, (p.decimals, p.limit))))))
  {
    assert Always(PARAMS_TAG);
    assert |PARAMS_TAG| == 40 && PlainText(PARAMS_TAG);
    assert Objects.TagText().valid(PARAMS_TAG);
    assert ValidUnit(p.unit) && PlainText(p.unit);
    assert TextCodec(ValidUnit).valid(p.unit);
    EveryKindHasACode(p.kind);
    assert Base(2) == 65536 by {
      assert Base(1) == 256;
    }
    assert UInt(2).valid(1);
    assert Base(1) == 256;
    assert UInt(1).valid(p.decimals) && UInt(32).valid(p.limit);
  }

  lemma HeadReads(p: A.Params, rest: Bytes)
    requires ValidHead(p)
    ensures Pair(Objects.TagText(), Pair(UInt(2), HeadCodec())).read(EncodeHead(p) + rest)
         == Some(Decoded((PARAMS_TAG, (1, (p.kind, (p.unit, (p.decimals, p.limit))))), |EncodeHead(p)|, 0))
  {
    HeadGood();
    HeadIsValid(p);
    hide Good;
    Decodes(Pair(Objects.TagText(), Pair(UInt(2), HeadCodec())), (PARAMS_TAG, (1, (p.kind, (p.unit, (p.decimals, p.limit))))), rest);
  }

  lemma ReadsOneMore<T(!new)>(c: Codec<T>, first: Bytes, rest: Bytes, n: nat, previous: Option<Bytes>, x: T, m: nat, xs: seq<T>, k: nat)
    requires c.read(first + rest) == Some(Decoded(x, |first|, m)) && (previous.Some? ==> Below(previous.value, first))
    requires ReadItems(c, rest, n, Some(first)) == Some(Decoded(xs, |rest|, k))
    ensures ReadItems(c, first + rest, n + 1, previous) == Some(Decoded([x] + xs, |first + rest|, m + k))
  {
    assert (first + rest)[..|first|] == first && (first + rest)[|first|..] == rest;
  }

  lemma ListReads<T(!new)>(c: Codec<T>, body: Bytes, xs: seq<T>, marks: nat)
    requires |xs| <= A.MAX_AGGREGATE_CONTRIBUTORS && ReadItems(c, body, |xs|, None) == Some(Decoded(xs, |body|, marks))
    ensures ReadList(c, A.MAX_AGGREGATE_CONTRIBUTORS, BigEndian(|xs|, 2) + body) == Some(Decoded(xs, |BigEndian(|xs|, 2) + body|, marks))
  {
    var n := |xs|;
    assert Base(2) == 65536 by {
      assert Base(1) == 256;
    }
    BigEndianInverse(n, 2);
    hide BigEndian, FromBigEndian, ReadItems;
    var list := BigEndian(n, 2) + body;
    assert list[..2] == BigEndian(n, 2) && list[2..] == body;
  }

  // Parameters with distinct contributors survive, in canonical order.
  lemma ParamsRoundTrip(p: A.Params)
    requires ValidHead(p) && 1 <= |p.contributors| <= A.MAX_AGGREGATE_CONTRIBUTORS && A.DistinctRefs(p.contributors)
    requires forall i :: 0 <= i < |p.contributors| ==> ModuleCodec().valid(p.contributors[i])
    ensures DecodeParams(EncodeParams(p))
         == Some(Decoded(p.(contributors := Sort(p.contributors, ModuleCodec().write)), |EncodeParams(p)|, 0))
  {
    var c := ModuleCodec();
    ModuleGood();
    DistinctModulesSort(c, p.contributors);
    var sorted := Sort(p.contributors, c.write);
    hide Good, ModuleCodec, WriteItems, ReadItems, BigEndian, EncodeHead, ReadList, Sort, Ascending, ValidHead;
    var body := WriteItems(c, sorted);
    ItemsDecode(c, sorted, [], None);
    assert body + [] == body;
    ListReads(c, body, sorted, 0);
    var list := BigEndian(|sorted|, 2) + body;
    HeadReads(p, list);
    HeadDecimals(p);
    Joined(p, EncodeHead(p), list, sorted, 0);
  }

  lemma DistinctModulesSort(c: Codec<ModuleRef>, refs: seq<ModuleRef>)
    requires Good(c) && A.DistinctRefs(refs) && AllValid(c, refs)
    ensures Ascending(Sort(refs, c.write), c.write) && AllValid(c, Sort(refs, c.write))
  {
    hide Good, Sort, Ascending;
    var sorted := Sort(refs, c.write);
    forall i, j | 0 <= i < j < |refs| ensures c.write(refs[i]) != c.write(refs[j]) {
      WritesDiffer(c, refs[i], refs[j]);
    }
    DistinctSortAscends(refs, c.write);
    forall i | 0 <= i < |sorted| ensures c.valid(sorted[i]) {
      assert sorted[i] in multiset(refs);
    }
  }

  lemma DistinctSortAscends<T(!new)>(xs: seq<T>, write: T -> Bytes)
    requires forall i, j :: 0 <= i < j < |xs| ==> write(xs[i]) != write(xs[j])
    ensures Ascending(Sort(xs, write), write) && multiset(Sort(xs, write)) == multiset(xs)
  {
    hide Sort, Ascending;
    SortSorts(xs, write);
    CanonicalSetIs(xs, write);
    CanonicalSetRefusesDuplicates(xs, write);
  }

  lemma WritesDiffer<T(!new)>(c: Codec<T>, x: T, y: T)
    requires Good(c) && c.valid(x) && c.valid(y) && x != y
    ensures c.write(x) != c.write(y)
  {
    hide Good;
    Decodes(c, x, []);
    Decodes(c, y, []);
  }

  // ---- What the decoder accepts ----------------------------------------------------------------

  lemma ValidModuleIs(m: ModuleRef)
    ensures ValidModule(m) <==> ModuleCodec().valid(m)
  {
    assert Base(4) == UINT32_MAX + 1 by {
      assert Base(2) == 65536 && Base(3) == 256 * Base(2) && Base(4) == 256 * Base(3);
    }
    assert Always(m);
    assert ModuleCodec().valid(m) <==> ModuleShape().valid(ModuleParts(m));
    IdentIs(m.domainId);
    IdentIs(m.moduleId);
    hide Base, ValidIdentifier;
  }

  lemma IdentIs(s: string)
    ensures Ident().valid(s) <==> ValidIdentifier(s)
  {
    if ValidIdentifier(s) {
      forall i | 0 <= i < |s| ensures s[i] as int < 128 {
        assert IsAlphanumeric(s[i]) || IsSeparator(s[i]);
      }
      assert TextCodec(ValidIdentifier).valid(s);
    }
  }

  // Whatever the decoder accepts is within these bounds, and nothing more is promised of the contributors.
  lemma DecodedAreValid(bytes: Bytes)
    requires DecodeParams(bytes).Some?
    ensures A.ValidParams(DecodeParams(bytes).value.value)
  {
    hide Pair, HeadCodec, UInt, ModuleCodec, ReadList;
    var d := Pair(Objects.TagText(), Pair(UInt(2), HeadCodec())).read(bytes).value;
    var rest := bytes[d.used..];
    HeadAccepted(bytes);
    ContributorsAccepted(rest);
  }

  lemma HeadAccepted(bytes: Bytes)
    requires Pair(Objects.TagText(), Pair(UInt(2), HeadCodec())).read(bytes).Some?
    ensures var h := Pair(Objects.TagText(), Pair(UInt(2), HeadCodec())).read(bytes).value.value.1.1;
            ValidUnit(h.1.0) && 0 <= h.1.1.0 && 0 <= h.1.1.1 <= UINT256_MAX
  {
    var c := Pair(Objects.TagText(), Pair(UInt(2), HeadCodec()));
    HeadGood();
    hide Good, Pair, HeadCodec, UInt;
    Accepted(c, bytes);
    var v := c.read(bytes).value.value;
    HeadSplits(v);
    HeadBounds(v.1.1);
  }

  lemma ContributorsAccepted(rest: Bytes)
    requires ReadList(ModuleCodec(), A.MAX_AGGREGATE_CONTRIBUTORS, rest).Some?
    ensures var refs := ReadList(ModuleCodec(), A.MAX_AGGREGATE_CONTRIBUTORS, rest).value.value;
            |refs| <= A.MAX_AGGREGATE_CONTRIBUTORS && forall m :: m in refs ==> ValidModule(m)
  {
    ModuleGood();
    hide Good, ModuleCodec, ReadList;
    var c := ModuleCodec();
    ListAccepted(c, A.MAX_AGGREGATE_CONTRIBUTORS, rest);
    var refs := ReadList(c, A.MAX_AGGREGATE_CONTRIBUTORS, rest).value.value;
    forall m | m in refs ensures ValidModule(m) {
      var i :| 0 <= i < |refs| && refs[i] == m;
      assert c.valid(refs[i]);
      ValidModuleIs(m);
    }
  }

  lemma HeadSplits(v: (string, (int, Head)))
    requires Pair(Objects.TagText(), Pair(UInt(2), HeadCodec())).valid(v)
    ensures HeadCodec().valid(v.1.1)
  {
  }

  lemma HeadBounds(h: Head)
    ensures HeadCodec().valid(h) ==> ValidUnit(h.1.0) && 0 <= h.1.1.0 && 0 <= h.1.1.1 <= UINT256_MAX
  {
    WidestInteger();
  }

  lemma WidestInteger()
    ensures Base(32) == UINT256_LIMIT
  {
    BasePower(16, 16);
    BasePower(8, 8);
    BasePower(4, 4);
    assert Base(2) == 65536 && Base(3) == 256 * Base(2) && Base(4) == 256 * Base(3);
  }

  lemma {:induction false} BasePower(a: nat, b: nat)
    ensures Base(a + b) == Base(a) * Base(b)
    decreases a
  {
    if a > 0 {
      BasePower(a - 1, b);
      assert Base(a + b) == 256 * Base(a - 1 + b);
      assert 256 * (Base(a - 1) * Base(b)) == (256 * Base(a - 1)) * Base(b);
    }
  }

  // ---- Naming a contributor more than once -----------------------------------------------------

  // A reference written plainly, or with a byte-order mark before its domain.
  datatype Spelling = Spelling(moduleRef: ModuleRef, marked: bool)

  function Spell(s: Spelling): Bytes {
    if s.marked then MarkedModule(s.moduleRef) else ModuleCodec().write(s.moduleRef)
  }

  function MarksOf(s: Spelling): nat {
    if s.marked then 1 else 0
  }

  lemma SpellReads(s: Spelling, rest: Bytes)
    requires ModuleCodec().valid(s.moduleRef)
    ensures ModuleCodec().read(Spell(s) + rest) == Some(Decoded(s.moduleRef, |Spell(s)|, MarksOf(s)))
  {
    hide Good, ModuleCodec, MarkedModule;
    if s.marked {
      MarkedModuleReads(s.moduleRef, rest);
    } else {
      ModuleGood();
      Decodes(ModuleCodec(), s.moduleRef, rest);
    }
  }

  lemma SpellingsDiffer(s: Spelling, t: Spelling)
    requires ModuleCodec().valid(s.moduleRef) && ModuleCodec().valid(t.moduleRef) && s != t
    ensures Spell(s) != Spell(t)
  {
    hide ModuleCodec, Spell;
    SpellReads(s, []);
    SpellReads(t, []);
  }

  function Spelled(xs: seq<Spelling>): Bytes {
    if xs == [] then [] else Spell(xs[0]) + Spelled(xs[1..])
  }

  function Named(xs: seq<Spelling>): seq<ModuleRef> {
    if xs == [] then [] else [xs[0].moduleRef] + Named(xs[1..])
  }

  function MarksIn(xs: seq<Spelling>): nat {
    if xs == [] then 0 else MarksOf(xs[0]) + MarksIn(xs[1..])
  }

  ghost predicate AllNameable(xs: seq<Spelling>) {
    forall i :: 0 <= i < |xs| ==> ModuleCodec().valid(xs[i].moduleRef)
  }

  lemma {:induction false} SpelledReads(xs: seq<Spelling>, previous: Option<Bytes>)
    requires AllNameable(xs) && Ascending(xs, Spell)
    requires previous.Some? && xs != [] ==> Below(previous.value, Spell(xs[0]))
    ensures |Named(xs)| == |xs|
    ensures ReadItems(ModuleCodec(), Spelled(xs), |xs|, previous) == Some(Decoded(Named(xs), |Spelled(xs)|, MarksIn(xs)))
    decreases |xs|
  {
    hide ModuleCodec, Spell, Below;
    if xs != [] {
      var c, rest := ModuleCodec(), xs[1..];
      assert forall i :: 0 <= i < |rest| ==> rest[i] == xs[i + 1];
      hide ReadItems;
      var first := Spell(xs[0]);
      SpelledReads(rest, Some(first));
      SpellReads(xs[0], Spelled(rest));
      ReadsOneMore(c, first, Spelled(rest), |rest|, previous, xs[0].moduleRef, MarksOf(xs[0]), Named(rest), MarksIn(rest));
    }
  }

  lemma {:induction false} NamedInsert(x: Spelling, xs: seq<Spelling>)
    ensures multiset(Named(Insert(x, xs, Spell))) == multiset(Named(xs)) + multiset{x.moduleRef}
    decreases |xs|
  {
    hide Spell;
    var r := Insert(x, xs, Spell);
    if xs == [] || Below(Spell(x), Spell(xs[0])) {
      assert r[1..] == xs;
    } else {
      NamedInsert(x, xs[1..]);
      assert r[1..] == Insert(x, xs[1..], Spell);
    }
  }

  lemma {:induction false} NamedSnoc(xs: seq<Spelling>, x: Spelling)
    ensures Named(xs + [x]) == Named(xs) + [x.moduleRef]
    decreases |xs|
  {
    if xs == [] {
      assert xs + [x] == [x] && [x][1..] == [];
    } else {
      NamedSnoc(xs[1..], x);
      assert (xs + [x])[1..] == xs[1..] + [x];
    }
  }

  lemma {:induction false} NamedSort(xs: seq<Spelling>)
    ensures multiset(Named(Sort(xs, Spell))) == multiset(Named(xs))
    decreases |xs|
  {
    hide Spell, Insert;
    if xs != [] {
      var front, last := xs[..|xs| - 1], xs[|xs| - 1];
      NamedSort(front);
      NamedInsert(last, Sort(front, Spell));
      NamedSnoc(front, last);
      assert xs == front + [last];
    }
  }

  // Different spellings in any number are an accepted list once they are put in order.
  lemma SpellingsDecode(p: A.Params, xs: seq<Spelling>) returns (bytes: Bytes)
    requires ValidHead(p) && 1 <= |xs| <= A.MAX_AGGREGATE_CONTRIBUTORS && AllNameable(xs) && Distinct(xs)
    ensures DecodeParams(bytes) == Some(Decoded(p.(contributors := Named(Sort(xs, Spell))), |bytes|, MarksIn(Sort(xs, Spell))))
  {
    hide Good, ModuleCodec, Spell, Sort, Ascending, BigEndian, ReadItems, ReadList, EncodeHead, ValidHead;
    var c := ModuleCodec();
    forall i, j | 0 <= i < j < |xs| ensures Spell(xs[i]) != Spell(xs[j]) {
      SpellingsDiffer(xs[i], xs[j]);
    }
    DistinctSortAscends(xs, Spell);
    var sorted := Sort(xs, Spell);
    forall i | 0 <= i < |sorted| ensures c.valid(sorted[i].moduleRef) {
      assert sorted[i] in multiset(xs);
    }
    SpelledReads(sorted, None);
    var list := BigEndian(|sorted|, 2) + Spelled(sorted);
    ListReads(c, Spelled(sorted), Named(sorted), MarksIn(sorted));
    bytes := EncodeHead(p) + list;
    HeadReads(p, list);
    HeadDecimals(p);
    Joined(p, EncodeHead(p), list, Named(sorted), MarksIn(sorted));
  }

  lemma HeadDecimals(p: A.Params)
    requires ValidHead(p)
    ensures p.decimals <= MAX_DECIMALS
  {
  }

  // The first time a reference is listed it is written plainly, after that with a mark.
  function Spellings(ms: seq<ModuleRef>): (r: seq<Spelling>)
    ensures |r| == |ms|
  {
    if ms == [] then []
    else
      var front, last := ms[..|ms| - 1], ms[|ms| - 1];
      Spellings(front) + [Spelling(last, last in front)]
  }

  lemma {:induction false} SpellingsName(ms: seq<ModuleRef>)
    ensures Named(Spellings(ms)) == ms
    decreases |ms|
  {
    if ms != [] {
      var front, last := ms[..|ms| - 1], ms[|ms| - 1];
      SpellingsName(front);
      NamedSnoc(Spellings(front), Spelling(last, last in front));
      assert ms == front + [last];
    }
  }

  // A marked spelling is of a reference listed at least twice.
  lemma {:induction false} SpellingsCount(ms: seq<ModuleRef>)
    ensures forall x :: x in Spellings(ms) ==> multiset(ms)[x.moduleRef] >= (if x.marked then 2 else 1)
    decreases |ms|
  {
    if ms != [] {
      var front, last := ms[..|ms| - 1], ms[|ms| - 1];
      assert ms == front + [last];
      SpellingsCount(front);
      assert last in front ==> last in multiset(front);
    }
  }

  lemma {:induction false} SpellingsDistinct(ms: seq<ModuleRef>)
    requires forall m :: multiset(ms)[m] <= 2
    ensures Distinct(Spellings(ms))
    decreases |ms|
  {
    if ms != [] {
      var front, last := ms[..|ms| - 1], ms[|ms| - 1];
      assert ms == front + [last];
      assert forall m :: multiset(ms)[m] == multiset(front)[m] + if m == last then 1 else 0;
      SpellingsDistinct(front);
      SpellingsCount(front);
      var x := Spelling(last, last in front);
      assert last !in front ==> last !in multiset(front);
      assert x !in Spellings(front);
    }
  }

  // Up to order, the decoder accepts every list that names each contributor at most twice.
  lemma TwiceNamedDecodes(p: A.Params, ms: seq<ModuleRef>) returns (bytes: Bytes)
    requires ValidHead(p) && 1 <= |ms| <= A.MAX_AGGREGATE_CONTRIBUTORS && (forall m :: m in ms ==> ValidModule(m))
    requires forall m :: multiset(ms)[m] <= 2
    ensures DecodeParams(bytes).Some?
    ensures var q := DecodeParams(bytes).value.value;
            q == p.(contributors := q.contributors) && multiset(q.contributors) == multiset(ms)
  {
    hide Spell, Sort, Spellings, ValidHead, ModuleCodec, DecodeParams, ValidModule;
    var xs := Spellings(ms);
    SpellingsName(ms);
    SpellingsCount(ms);
    SpellingsDistinct(ms);
    forall i | 0 <= i < |xs| ensures ModuleCodec().valid(xs[i].moduleRef) {
      assert xs[i] in xs;
      assert xs[i].moduleRef in multiset(ms);
      ValidModuleIs(xs[i].moduleRef);
    }
    bytes := SpellingsDecode(p, xs);
    NamedSort(xs);
  }

  // So it accepts a list that names one contributor twice, and no distinctness can be read off its result.
  lemma RepeatedContributorDecodes(p: A.Params, m: ModuleRef) returns (bytes: Bytes)
    requires ValidHead(p) && ValidModule(m)
    ensures DecodeParams(bytes).Some? && DecodeParams(bytes).value.value == p.(contributors := [m, m])
  {
    var ms := [m, m];
    hide DecodeParams, ValidHead;
    bytes := TwiceNamedDecodes(p, ms);
    var got := DecodeParams(bytes).value.value.contributors;
    assert |got| == |multiset(got)| == |multiset(ms)| == 2;
    forall i | 0 <= i < 2 ensures got[i] == m {
      assert got[i] in multiset(got);
    }
    assert got == ms;
  }
}
