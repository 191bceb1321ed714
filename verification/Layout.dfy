// The bytes of grants, policies, terms and requirements written out, field by field and code by code, and that they are
// what the codecs write (packages/core/src/{identifiers,module,quantity,state,terms,authority}.ts;
// packages/kernel/src/encoding/writer.ts).
module Layout {
  import opened Common
  import opened Core
  import opened Canonical
  import opened Codec
  import opened CodecSets
  import opened Wire
  import opened Objects

  // ---- Integers and text -------------------------------------------------------------------------

  function Power256(n: nat): (p: nat)
    ensures p >= 1
  {
    if n == 0 then 1 else 256 * Power256(n - 1)
  }

  // An unsigned integer, most significant byte first.
  function U(n: nat, width: nat): (r: Bytes)
    ensures |r| == width
  {
    seq(width, i requires 0 <= i < width => ((n / Power256(width - 1 - i)) % 256) as Byte)
  }

  // A signed one in two's complement.
  function I(n: int, width: nat): Bytes {
    if n >= 0 then U(n, width) else if n + Power256(width) >= 0 then U(n + Power256(width), width) else []
  }

  function Text(s: string): Bytes {
    U(|s|, 2) + TextBytes(s)
  }

  lemma DivideTwice(n: nat, k: nat)
    requires k >= 1
    ensures (n / 256) / k == n / (256 * k)
  {
    var q, r := (n / 256) / k, (n / 256) % k;
    assert n / 256 == q * k + r;
    var s := n % 256;
    assert n == 256 * (q * k + r) + s;
    assert 256 * (q * k + r) + s == q * (256 * k) + (256 * r + s) by {
      assert 256 * (q * k) == q * (256 * k);
    }
    assert 0 <= 256 * r + s < 256 * k;
    QuotientUnique(n, 256 * k, q, 256 * r + s);
  }

  lemma QuotientUnique(n: int, k: int, q: int, r: int)
    requires k > 0 && n == q * k + r && 0 <= r < k
    ensures n / k == q
  {
    var d := n / k - q;
    assert d * k == r - n % k;
    assert !(d >= 1) && !(d <= -1);
  }

  // The writer's loop puts exactly those digits.
  lemma {:induction false} DigitsAre(n: nat, width: nat)
    ensures BigEndian(n, width) == U(n, width)
    decreases width
  {
    if width > 0 {
      DigitsAre(n / 256, width - 1);
      var b, u := BigEndian(n, width), U(n, width);
      forall i | 0 <= i < width ensures b[i] == u[i] {
        if i < width - 1 {
          assert b[i] == U(n / 256, width - 1)[i];
          DivideTwice(n, Power256(width - 2 - i));
          assert Power256(width - 1 - i) == 256 * Power256(width - 2 - i);
        } else {
          assert Power256(0) == 1;
        }
      }
    }
  }

  lemma {:induction false} BaseIs(width: nat)
    ensures Base(width) == Power256(width)
  {
    if width > 0 {
      BaseIs(width - 1);
    }
  }

  lemma UIntIs(x: int, width: nat)
    requires UInt(width).valid(x)
    ensures UInt(width).write(x) == U(x, width)
  {
    DigitsAre(x, width);
  }

  lemma NaturalIs(x: int, width: nat)
    requires UInt(width).valid(x)
    ensures UInt(width).write(x) == U(Natural(x), width) && x >= 0
  {
    UIntIs(x, width);
  }

  lemma SIntIs(x: int, width: nat)
    requires width > 0 && SInt(width).valid(x)
    ensures SInt(width).write(x) == I(x, width)
  {
    BaseIs(width);
    BaseEven(width);
    DigitsAre(Unsigned(x, width), width);
  }

  lemma TextIs(rule: string -> bool, s: string)
    ensures TextCodec(rule).write(s) == Text(s)
  {
    DigitsAre(|s|, 2);
  }

  lemma IdentIs(s: string)
    ensures Ident().write(s) == Text(s)
  {
    TextIs(ValidIdentifier, s);
  }

  lemma DigestIs(nonZero: bool, d: Bytes)
    ensures DigestCodec(nonZero).write(d) == d
  {
  }

  // ---- Lists -------------------------------------------------------------------------------------

  // The items' bytes one after the other.
  function Joined<T>(items: seq<T>, lay: T -> Bytes): Bytes {
    if items == [] then [] else lay(items[0]) + Joined(items[1..], lay)
  }

  // A two-byte count, then the items.
  function Counted<T>(items: seq<T>, lay: T -> Bytes): Bytes {
    U(|items|, 2) + Joined(items, lay)
  }

  lemma {:induction false} ItemsAre<T(!new)>(c: Codec<T>, items: seq<T>, lay: T -> Bytes)
    requires forall i :: 0 <= i < |items| ==> c.write(items[i]) == lay(items[i])
    ensures WriteItems(c, items) == Joined(items, lay)
    decreases |items|
  {
    if items != [] {
      assert forall i :: 0 <= i < |items[1..]| ==> items[1..][i] == items[i + 1];
      ItemsAre(c, items[1..], lay);
    }
  }

  lemma SetIs<T(!new)>(c: Codec<T>, max: nat, rule: seq<T> -> bool, items: seq<T>, lay: T -> Bytes)
    requires forall i :: 0 <= i < |items| ==> c.write(items[i]) == lay(items[i])
    ensures SetOf(c, max, rule).write(items) == Counted(items, lay)
  {
    ItemsAre(c, items, lay);
    DigitsAre(|items|, 2);
  }

  function Maybe<T>(x: Option<T>, lay: T -> Bytes): Bytes {
    if x.None? then [0] else [1] + lay(x.value)
  }

  // ---- References --------------------------------------------------------------------------------

  function LayParty(p: Party): Bytes {
    Text(p.kind) + Text(p.value)
  }

  function KindByte(k: ResourceKind): Bytes {
    match k
    case MARKET => [1]
    case CANONICAL_ASSET => [2]
    case REPRESENTATION_ASSET => [3]
    case ACCOUNT => [4]
    case VENUE => [5]
    case RECIPIENT => [6]
    case PROPOSAL => [7]
  }

  function LayResource(r: Resource): Bytes {
    Text(r.domain) + KindByte(r.kind) + Text(r.localId)
  }

  function LayModule(m: ModuleRef): Bytes {
    Text(m.domainId) + Text(m.moduleId) + U(Natural(m.version), 4) + m.digest
  }

  function LayAdapter(a: AdapterRef): Bytes {
    Text(a.adapterId) + U(Natural(a.version), 4) + a.digest
  }

  function LayActionType(a: ActionTypeRef): Bytes {
    Text(a.domain) + Text(a.actionType)
  }

  lemma PairIs<A(!new), B(!new)>(a: Codec<A>, b: Codec<B>, x: A, y: B)
    ensures Pair(a, b).write((x, y)) == a.write(x) + b.write(y)
    ensures Pair(a, b).valid((x, y)) <==> a.valid(x) && b.valid(y)
  {
  }

  lemma FourPairs<A(!new), B(!new), C(!new), D(!new)>(a: Codec<A>, b: Codec<B>, c: Codec<C>, d: Codec<D>, x: A, y: B, z: C, w: D)
    ensures Pair(a, Pair(b, Pair(c, d))).write((x, (y, (z, w)))) == a.write(x) + b.write(y) + c.write(z) + d.write(w)
    ensures Pair(a, Pair(b, Pair(c, d))).valid((x, (y, (z, w)))) <==> a.valid(x) && b.valid(y) && c.valid(z) && d.valid(w)
  {
    PairIs(a, Pair(b, Pair(c, d)), x, (y, (z, w)));
    PairIs(b, Pair(c, d), y, (z, w));
    PairIs(c, d, z, w);
    hide Pair;
    assert a.write(x) + (b.write(y) + (c.write(z) + d.write(w))) == a.write(x) + b.write(y) + c.write(z) + d.write(w);
  }

  lemma MappedIs<A(!new), B(!new)>(a: Codec<A>, to: A -> B, from: B -> A, rule: B -> bool, x: B)
    ensures Mapped(a, to, from, rule).write(x) == a.write(from(x))
    ensures Mapped(a, to, from, rule).valid(x) <==> rule(x) && a.valid(from(x))
  {
  }

  lemma ChoiceIs<T(!new)>(code: T -> int, branch: int -> Codec<T>, x: T)
    requires Choice(code, branch).valid(x)
    ensures 0 <= code(x) < 256 && branch(code(x)).valid(x) && Choice(code, branch).write(x) == [code(x) as Byte] + branch(code(x)).write(x)
  {
  }

  lemma NullableIs<T(!new)>(a: Codec<T>, x: Option<T>)
    ensures Nullable(a).write(x) == if x.None? then [0] else [1] + a.write(x.value)
    ensures Nullable(a).valid(x) && x.Some? ==> a.valid(x.value)
  {
  }

  lemma ConstantIs<T(!new)>(k: T)
    ensures Constant(k).write(k) == []
  {
  }

  // The code of the member at a position of a list without repetitions.
  lemma CodeIs<T(!new)>(all: seq<T>, x: T, i: nat)
    requires |all| < 256 && Distinct(all) && i < |all| && all[i] == x
    ensures Enumerated(all).write(x) == [(i + 1) as Byte]
  {
    CodeOfMember(all, x);
  }

  lemma PartyIs(p: Party)
    ensures PartyCodec().write(p) == LayParty(p)
  {
    IdentIs(p.kind);
    IdentIs(p.value);
    MappedIs(Pair(Ident(), Ident()), PartyOf, PartyParts, ValidParty, p);
    PairIs(Ident(), Ident(), p.kind, p.value);
  }

  lemma ResourceKindIs(k: ResourceKind)
    ensures Enumerated(RESOURCE_KINDS).write(k) == KindByte(k)
  {
    var i := match k case MARKET => 0 case CANONICAL_ASSET => 1 case REPRESENTATION_ASSET => 2 case ACCOUNT => 3 case VENUE => 4 case RECIPIENT => 5
                     case PROPOSAL => 6;
    hide Enumerated;
    CodeIs(RESOURCE_KINDS, k, i);
  }

  lemma ResourceIs(rule: Resource -> bool, r: Resource)
    ensures ResourceCodec(rule).write(r) == LayResource(r)
  {
    var kinds := Enumerated(RESOURCE_KINDS);
    IdentIs(r.domain);
    IdentIs(r.localId);
    ResourceKindIs(r.kind);
    hide Text, Ident, Enumerated;
    MappedIs(Pair(Ident(), Pair(kinds, Ident())), ResourceOf, ResourceParts, rule, r);
    PairIs(kinds, Ident(), r.kind, r.localId);
    PairIs(Ident(), Pair(kinds, Ident()), r.domain, (r.kind, r.localId));
    hide Pair, Mapped;
    assert Text(r.domain) + (KindByte(r.kind) + Text(r.localId)) == LayResource(r);
  }

  lemma ModuleIs(m: ModuleRef)
    requires ModuleCodec().valid(m)
    ensures ModuleCodec().write(m) == LayModule(m)
  {
    var end, mid := Pair(UInt(4), DigestCodec(true)), Pair(Ident(), Pair(UInt(4), DigestCodec(true)));
    MappedIs(ModuleShape(), ModuleOf, ModuleParts, Always, m);
    PairIs(Ident(), mid, m.domainId, (m.moduleId, (m.version, m.digest)));
    PairIs(Ident(), end, m.moduleId, (m.version, m.digest));
    PairIs(UInt(4), DigestCodec(true), m.version, m.digest);
    NaturalIs(m.version, 4);
    IdentIs(m.domainId);
    IdentIs(m.moduleId);
    assert DigestCodec(true).write(m.digest) == m.digest;
    hide Text, U, Ident, UInt, DigestCodec, Pair, Mapped;
    assert Text(m.domainId) + (Text(m.moduleId) + (U(Natural(m.version), 4) + m.digest)) == LayModule(m);
  }

  lemma AdapterIs(a: AdapterRef)
    requires AdapterCodec().valid(a)
    ensures AdapterCodec().write(a) == LayAdapter(a)
  {
    var end := Pair(UInt(4), DigestCodec(true));
    MappedIs(Pair(Ident(), end), AdapterOf, AdapterParts, Always, a);
    PairIs(Ident(), end, a.adapterId, (a.version, a.digest));
    PairIs(UInt(4), DigestCodec(true), a.version, a.digest);
    NaturalIs(a.version, 4);
    IdentIs(a.adapterId);
    assert DigestCodec(true).write(a.digest) == a.digest;
    hide Text, U, Ident, UInt, DigestCodec, Pair, Mapped;
    assert Text(a.adapterId) + (U(Natural(a.version), 4) + a.digest) == LayAdapter(a);
  }

  lemma ActionTypeIs(a: ActionTypeRef)
    ensures ActionTypeCodec().write(a) == LayActionType(a)
  {
    IdentIs(a.domain);
    IdentIs(a.actionType);
    MappedIs(Pair(Ident(), Ident()), ActionTypeOf, ActionTypeParts, Always, a);
    PairIs(Ident(), Ident(), a.domain, a.actionType);
  }

  // ---- Set constraints and rights ----------------------------------------------------------------

  function LayMembers(m: Members): Bytes {
    match m
    case MODULES(xs) => [1] + Counted(xs, LayModule)
    case ADAPTERS(xs) => [2] + Counted(xs, LayAdapter)
    case MARKETS(xs) => [3] + Counted(xs, LayResource)
    case ASSETS(xs) => [4] + Counted(xs, LayResource)
    case VENUES(xs) => [5] + Counted(xs, LayResource)
    case RECIPIENTS(xs) => [6] + Counted(xs, LayResource)
    case ACTION_TYPES(xs) => [7] + Counted(xs, LayActionType)
  }

  lemma ResourcesAre(rule: Resource -> bool, xs: seq<Resource>)
    ensures MemberSet(ResourceCodec(rule)).write(xs) == Counted(xs, LayResource)
  {
    hide ResourceCodec, LayResource;
    forall i | 0 <= i < |xs| ensures ResourceCodec(rule).write(xs[i]) == LayResource(xs[i]) {
      ResourceIs(rule, xs[i]);
    }
    SetIs(ResourceCodec(rule), MAX_SET_MEMBERS, Always, xs, LayResource);
  }

  lemma ModulesAre(xs: seq<ModuleRef>)
    requires MemberSet(ModuleCodec()).valid(xs)
    ensures MemberSet(ModuleCodec()).write(xs) == Counted(xs, LayModule)
  {
    hide ModuleCodec, LayModule;
    MembersValid(ModuleCodec(), xs);
    forall i | 0 <= i < |xs| ensures ModuleCodec().write(xs[i]) == LayModule(xs[i]) {
      ModuleIs(xs[i]);
    }
    SetIs(ModuleCodec(), MAX_SET_MEMBERS, Always, xs, LayModule);
  }

  lemma AdaptersAre(xs: seq<AdapterRef>)
    requires MemberSet(AdapterCodec()).valid(xs)
    ensures MemberSet(AdapterCodec()).write(xs) == Counted(xs, LayAdapter)
  {
    hide AdapterCodec, LayAdapter;
    MembersValid(AdapterCodec(), xs);
    forall i | 0 <= i < |xs| ensures AdapterCodec().write(xs[i]) == LayAdapter(xs[i]) {
      AdapterIs(xs[i]);
    }
    SetIs(AdapterCodec(), MAX_SET_MEMBERS, Always, xs, LayAdapter);
  }

  lemma ActionTypesAre(xs: seq<ActionTypeRef>)
    ensures MemberSet(ActionTypeCodec()).write(xs) == Counted(xs, LayActionType)
  {
    hide ActionTypeCodec, LayActionType;
    forall i | 0 <= i < |xs| ensures ActionTypeCodec().write(xs[i]) == LayActionType(xs[i]) {
      ActionTypeIs(xs[i]);
    }
    SetIs(ActionTypeCodec(), MAX_SET_MEMBERS, Always, xs, LayActionType);
  }

  lemma MembersValid<T(!new)>(c: Codec<T>, xs: seq<T>)
    requires MemberSet(c).valid(xs)
    ensures forall i :: 0 <= i < |xs| ==> c.valid(xs[i])
  {
  }

  lemma MembersAre(m: Members)
    requires MembersCodec().valid(m)
    ensures MembersCodec().write(m) == LayMembers(m)
  {
    hide Counted, ResourceCodec, ModuleCodec, AdapterCodec, ActionTypeCodec, LayModule, LayAdapter, LayActionType, LayResource, MemberSet, Mapped;
    ChoiceIs(VocabularyCode, MembersBranch, m);
    hide Choice;
    match m
    case MODULES(xs) =>
      MappedIs(MemberSet(ModuleCodec()), ModulesOf, ModulesIn, IsModules, m);
      ModulesAre(xs);
    case ADAPTERS(xs) =>
      MappedIs(MemberSet(AdapterCodec()), AdaptersOf, AdaptersIn, IsAdapters, m);
      AdaptersAre(xs);
    case MARKETS(xs) =>
      MappedIs(MemberSet(ResourceCodec(IsMarket)), MarketsOf, ResourcesIn, IsMarkets, m);
      ResourcesAre(IsMarket, xs);
    case ASSETS(xs) =>
      MappedIs(MemberSet(ResourceCodec(IsAsset)), AssetsOf, ResourcesIn, IsAssets, m);
      ResourcesAre(IsAsset, xs);
    case VENUES(xs) =>
      MappedIs(MemberSet(ResourceCodec(IsVenue)), VenuesOf, ResourcesIn, IsVenues, m);
      ResourcesAre(IsVenue, xs);
    case RECIPIENTS(xs) =>
      MappedIs(MemberSet(ResourceCodec(IsRecipient)), RecipientsOf, ResourcesIn, IsRecipients, m);
      ResourcesAre(IsRecipient, xs);
    case ACTION_TYPES(xs) =>
      MappedIs(MemberSet(ActionTypeCodec()), ActionTypesOf, ActionTypesIn, IsActionTypes, m);
      ActionTypesAre(xs);
  }

  function LayRight(r: Right): Bytes {
    match r
    case OPEN_RISK => [1]
    case REDUCE_RISK => [2]
    case TRANSFER_OUT => [3]
    case DELEGATE(depth) => [4] + U(depth, 1)
  }

  lemma RightIs(r: Right)
    requires RightCodec().valid(r)
    ensures RightCodec().write(r) == LayRight(r)
  {
    ChoiceIs(RightWireCode, RightBranch, r);
    hide Choice, U, UInt;
    match r
    case OPEN_RISK => ConstantIs(OPEN_RISK);
    case REDUCE_RISK => ConstantIs(REDUCE_RISK);
    case TRANSFER_OUT => ConstantIs(TRANSFER_OUT);
    case DELEGATE(depth) =>
      MappedIs(UInt(1), DelegateOf, DepthOf, ValidDelegate, r);
      UIntIs(depth, 1);
  }

  // ---- Quantities and bounds ---------------------------------------------------------------------

  function QuantityByte(k: QuantityKind): Bytes {
    match k
    case TOKEN_AMOUNT => [1]
    case CAPITAL => [2]
    case POSITION_SIZE => [3]
    case NOTIONAL => [4]
    case GROSS_EXPOSURE => [5]
    case NET_EXPOSURE => [6]
    case MARGIN => [7]
    case COLLATERAL => [8]
    case DEBT => [9]
    case PNL => [10]
    case COUNT => [11]
  }

  function LayQuantity(q: QuantityBound): Bytes {
    QuantityByte(q.kind) + Text(q.unit) + U(q.decimals, 1) + U(Natural(q.atoms), 32)
  }

  function LayRatio(r: Ratio): Bytes {
    U(Natural(r.numerator), 32) + U(r.scale, 1)
  }

  function LayValue(v: BoundValue): Bytes {
    match v
    case QUANTITY(q) => [1] + LayQuantity(q)
    case RATIO(r) => [2] + LayRatio(r)
  }

  lemma QuantityByteIs(k: QuantityKind)
    ensures Enumerated(QUANTITY_KINDS).write(k) == QuantityByte(k)
  {
    var i := match k case TOKEN_AMOUNT => 0 case CAPITAL => 1 case POSITION_SIZE => 2 case NOTIONAL => 3 case GROSS_EXPOSURE => 4 case NET_EXPOSURE => 5
                     case MARGIN => 6 case COLLATERAL => 7 case DEBT => 8 case PNL => 9 case COUNT => 10;
    hide Enumerated;
    CodeIs(QUANTITY_KINDS, k, i);
  }

  lemma QuantityIs(q: QuantityBound)
    requires QuantityBoundCodec().valid(q)
    ensures QuantityBoundCodec().write(q) == LayQuantity(q)
  {
    hide ValidQuantityBound, Enumerated, TextCodec, UInt, Text, U, QuantityByte, QuantityBoundShape;
    MappedIs(QuantityBoundShape(), QuantityBoundOf, QuantityBoundParts, ValidQuantityBound, q);
    QuantityPartsAre(q);
  }

  lemma QuantityPartsAre(q: QuantityBound)
    requires QuantityBoundShape().valid(QuantityBoundParts(q))
    ensures QuantityBoundShape().write(QuantityBoundParts(q)) == LayQuantity(q)
  {
    hide Enumerated, TextCodec, UInt, Text, U, QuantityByte;
    FourPairs(Enumerated(QUANTITY_KINDS), TextCodec(ValidUnit), UInt(1), UInt(32), q.kind, q.unit, q.decimals, q.atoms);
    hide Pair;
    QuantityByteIs(q.kind);
    TextIs(ValidUnit, q.unit);
    UIntIs(q.decimals, 1);
    NaturalIs(q.atoms, 32);
  }

  lemma RatioIs(r: Ratio)
    requires RatioCodec().valid(r)
    ensures RatioCodec().write(r) == LayRatio(r)
  {
    hide UInt, U;
    MappedIs(Pair(UInt(32), UInt(1)), RatioOf, RatioParts, ValidRatio, r);
    PairIs(UInt(32), UInt(1), r.numerator, r.scale);
    NaturalIs(r.numerator, 32);
    UIntIs(r.scale, 1);
  }

  lemma ValueIs(v: BoundValue)
    requires BoundValueCodec().valid(v)
    ensures BoundValueCodec().write(v) == LayValue(v)
  {
    hide QuantityBoundCodec, RatioCodec, LayQuantity, LayRatio;
    ChoiceIs(BoundValueCode, BoundValueBranch, v);
    hide Choice;
    match v
    case QUANTITY(q) =>
      MappedIs(QuantityBoundCodec(), QuantityValueOf, QuantityIn, IsQuantity, v);
      QuantityIs(q);
    case RATIO(r) =>
      MappedIs(RatioCodec(), RatioValueOf, RatioIn, IsRatio, v);
      RatioIs(r);
  }

  // ---- State requirements ------------------------------------------------------------------------

  function LayFreshness(f: Freshness): Bytes {
    match f
    case AGE(maxAge) => [1] + U(Natural(maxAge), 4)
    case BLOCKS(behind) => [2] + U(Natural(behind), 8)
    case SEQUENCE => [3]
    case VERSION(pinned, maxAge) => [4] + pinned + U(Natural(maxAge), 4)
  }

  function TrustByte(t: TrustClass): Bytes {
    match t
    case AUTHORITATIVE => [1]
    case VERIFIED => [2]
    case ADVISORY => [3]
    case UNTRUSTED => [4]
  }

  function IssueByte(a: AtIssue): Bytes {
    match a
    case WITHIN_POLICY => [1]
    case RECHECK => [2]
  }

  function LayDependence(d: Dependence): Bytes {
    match d
    case NOT_REQUIRED => [1]
    case ENFORCED_BY_ARTIFACT(field) => [2] + Text(field)
    case BOUNDED_BY_FRESHNESS => [3]
  }

  // Freshness, trust, finality (ladder, level), what issue asks, what execution depends on.
  function LayRequirement(r: Requirement): Bytes {
    LayFreshness(r.freshness) + TrustByte(r.minTrust) + Text(r.minFinality.ladder) + Text(r.minFinality.level)
    + IssueByte(r.atIssue) + LayDependence(r.atExecution)
  }

  lemma FreshnessIs(f: Freshness)
    requires FreshnessCodec().valid(f)
    ensures FreshnessCodec().write(f) == LayFreshness(f)
  {
    hide UInt, U, DigestCodec;
    ChoiceIs(FreshnessCode, FreshnessBranch, f);
    hide Choice;
    match f
    case AGE(maxAge) =>
      MappedIs(UInt(4), AgeOf, AgeIn, IsAge, f);
      NaturalIs(maxAge, 4);
    case BLOCKS(behind) =>
      MappedIs(UInt(8), BlocksOf, BlocksIn, IsBlocks, f);
      NaturalIs(behind, 8);
    case SEQUENCE => ConstantIs(SEQUENCE);
    case VERSION(pinned, maxAge) =>
      MappedIs(Pair(DigestCodec(false), UInt(4)), VersionOf, VersionIn, IsVersion, f);
      PairIs(DigestCodec(false), UInt(4), pinned, maxAge);
      NaturalIs(maxAge, 4);
      DigestIs(false, pinned);
      assert [4] + (pinned + U(Natural(maxAge), 4)) == [4] + pinned + U(Natural(maxAge), 4);
  }

  lemma DependenceIs(d: Dependence)
    requires DependenceCodec().valid(d)
    ensures DependenceCodec().write(d) == LayDependence(d)
  {
    ChoiceIs(DependenceCode, DependenceBranch, d);
    hide Choice, Text, Ident;
    match d
    case NOT_REQUIRED => ConstantIs(NOT_REQUIRED);
    case ENFORCED_BY_ARTIFACT(field) =>
      MappedIs(Ident(), EnforcedOf, EnforcedIn, IsEnforced, d);
      IdentIs(field);
    case BOUNDED_BY_FRESHNESS => ConstantIs(BOUNDED_BY_FRESHNESS);
  }

  lemma CodesAre(t: TrustClass, a: AtIssue)
    ensures Enumerated(TRUST_CLASSES).write(t) == TrustByte(t) && Enumerated(AT_ISSUE_VALUES).write(a) == IssueByte(a)
  {
    hide Enumerated;
    CodeIs(TRUST_CLASSES, t, match t case AUTHORITATIVE => 0 case VERIFIED => 1 case ADVISORY => 2 case UNTRUSTED => 3);
    CodeIs(AT_ISSUE_VALUES, a, match a case WITHIN_POLICY => 0 case RECHECK => 1);
  }

  lemma RequirementIs(r: Requirement)
    requires RequirementCodec().valid(r)
    ensures RequirementCodec().write(r) == LayRequirement(r)
  {
    var f, trust, issue, dep := r.freshness, Enumerated(TRUST_CLASSES), Enumerated(AT_ISSUE_VALUES), DependenceCodec();
    var f2, f3 := r.minFinality.ladder, r.minFinality.level;
    hide FreshnessCodec, DependenceCodec, LayFreshness, LayDependence, Enumerated, Ident, Text, TrustByte, IssueByte, CoherentRequirement;
    MappedIs(RequirementShape(), RequirementOf, PartsOfRequirement, CoherentRequirement, r);
    PairIs(FreshnessCodec(), Pair(trust, RequirementTail()), f, (r.minTrust, (f2, (f3, (r.atIssue, r.atExecution)))));
    PairIs(trust, RequirementTail(), r.minTrust, (f2, (f3, (r.atIssue, r.atExecution))));
    PairIs(Ident(), Pair(Ident(), Pair(issue, dep)), f2, (f3, (r.atIssue, r.atExecution)));
    PairIs(Ident(), Pair(issue, dep), f3, (r.atIssue, r.atExecution));
    PairIs(issue, dep, r.atIssue, r.atExecution);
    hide Pair, Mapped;
    FreshnessIs(f);
    DependenceIs(r.atExecution);
    CodesAre(r.minTrust, r.atIssue);
    IdentIs(f2);
    IdentIs(f3);
    assert LayFreshness(f) + (TrustByte(r.minTrust) + (Text(f2) + (Text(f3) + (IssueByte(r.atIssue) + LayDependence(r.atExecution))))) == LayRequirement(r);
  }

  // ---- Dimensions --------------------------------------------------------------------------------

  function LayEpoch(e: Epoch): Bytes {
    I(e.anchor, 8) + U(Natural(e.lengthSeconds), 4)
  }

  function AccountingByte(a: Accounting): Bytes {
    match a
    case BUDGET => [1]
    case CAPACITY => [2]
  }

  function RestorationByte(r: Restoration): Bytes {
    match r
    case NONE => [1]
    case EPOCH => [2]
    case AS_CHARGED => [3]
    case UNITS => [4]
  }

  function SignByte(s: SignMode): Bytes {
    match s
    case UNSIGNED => [1]
    case NET => [2]
  }

  // Asset, market, domain, account, each present or not.
  function LayScope(s: Scope): Bytes {
    Maybe(s.asset, LayResource) + Maybe(s.market, LayResource) + Maybe(s.domain, Text) + Maybe(s.account, LayResource)
  }

  // Identifier, limit, accounting, restoration, epoch if any, sign, scope.
  function LayDimension(d: Dimension): Bytes {
    Text(d.dimensionId) + LayQuantity(d.limit) + AccountingByte(d.accounting) + RestorationByte(d.restoration)
    + Maybe(d.epoch, LayEpoch) + SignByte(d.sign) + LayScope(d.scope)
  }

  lemma EpochIs(e: Epoch)
    requires EpochCodec().valid(e)
    ensures EpochCodec().write(e) == LayEpoch(e)
  {
    hide SInt, UInt, I, U;
    MappedIs(Pair(SInt(8), UInt(4)), EpochOf, EpochParts, Always, e);
    PairIs(SInt(8), UInt(4), e.anchor, e.lengthSeconds);
    SIntIs(e.anchor, 8);
    NaturalIs(e.lengthSeconds, 4);
  }

  lemma MaybeResource(rule: Resource -> bool, r: Option<Resource>)
    ensures Nullable(ResourceCodec(rule)).write(r) == Maybe(r, LayResource)
  {
    hide ResourceCodec, LayResource;
    NullableIs(ResourceCodec(rule), r);
    if r.Some? {
      ResourceIs(rule, r.value);
    }
  }

  lemma MaybeText(s: Option<string>)
    ensures Nullable(Ident()).write(s) == Maybe(s, Text)
  {
    hide Ident, Text;
    NullableIs(Ident(), s);
    if s.Some? {
      IdentIs(s.value);
    }
  }

  lemma MaybeEpoch(e: Option<Epoch>)
    requires Nullable(EpochCodec()).valid(e)
    ensures Nullable(EpochCodec()).write(e) == Maybe(e, LayEpoch)
  {
    hide EpochCodec, LayEpoch;
    NullableIs(EpochCodec(), e);
    if e.Some? {
      EpochIs(e.value);
    }
  }

  lemma ScopeIs(s: Scope)
    ensures ScopeCodec().write(s) == LayScope(s)
  {
    var asset, market, account := ResourceCodec(IsAsset), ResourceCodec(IsMarket), ResourceCodec(IsAccount);
    hide ResourceCodec, Ident, LayResource, Text;
    var end := Pair(Nullable(Ident()), Nullable(account));
    MappedIs(ScopeShape(), ScopeOf, PartsOfScope, Always, s);
    PairIs(Nullable(asset), Pair(Nullable(market), end), s.asset, (s.market, (s.domain, s.account)));
    PairIs(Nullable(market), end, s.market, (s.domain, s.account));
    PairIs(Nullable(Ident()), Nullable(account), s.domain, s.account);
    hide Pair, Mapped;
    MaybeResource(IsAsset, s.asset);
    MaybeResource(IsMarket, s.market);
    MaybeResource(IsAccount, s.account);
    MaybeText(s.domain);
    hide Nullable, Maybe;
    assert Maybe(s.asset, LayResource) + (Maybe(s.market, LayResource) + (Maybe(s.domain, Text) + Maybe(s.account, LayResource))) == LayScope(s);
  }

  lemma DimensionCodes(a: Accounting, r: Restoration, s: SignMode)
    ensures Enumerated(ACCOUNTING_VALUES).write(a) == AccountingByte(a)
    ensures Enumerated(RESTORATION_VALUES).write(r) == RestorationByte(r)
    ensures Enumerated(SIGN_MODES).write(s) == SignByte(s)
  {
    hide Enumerated;
    CodeIs(ACCOUNTING_VALUES, a, match a case BUDGET => 0 case CAPACITY => 1);
    CodeIs(RESTORATION_VALUES, r, match r case NONE => 0 case EPOCH => 1 case AS_CHARGED => 2 case UNITS => 3);
    CodeIs(SIGN_MODES, s, match s case UNSIGNED => 0 case NET => 1);
  }

  lemma DimensionJoins(a: Bytes, b: Bytes, c: Bytes, d: Bytes, e: Bytes, f: Bytes, g: Bytes)
    ensures a + (b + (c + (d + (e + (f + g))))) == a + b + c + d + e + f + g
  {
    assert d + (e + (f + g)) == d + e + f + g;
    assert c + (d + e + f + g) == c + d + e + f + g;
    assert b + (c + d + e + f + g) == b + c + d + e + f + g;
  }

  lemma DimensionIs(d: Dimension)
    requires DimensionCodec().valid(d)
    ensures DimensionCodec().write(d) == LayDimension(d)
  {
    var accounting, restoration, sign := Enumerated(ACCOUNTING_VALUES), Enumerated(RESTORATION_VALUES), Enumerated(SIGN_MODES);
    hide LayQuantity, LayEpoch, LayScope, Text, QuantityBoundCodec, EpochCodec, ScopeCodec, ValidDimension, Enumerated, Ident, AccountingByte,
      RestorationByte, SignByte;
    var end := Pair(sign, ScopeCodec());
    var rest := Pair(restoration, Pair(Nullable(EpochCodec()), end));
    MappedIs(DimensionShape(), DimensionOf, PartsOfDimension, ValidDimension, d);
    PairIs(Ident(), Pair(QuantityBoundCodec(), DimensionTail()), d.dimensionId,
           (d.limit, (d.accounting, (d.restoration, (d.epoch, (d.sign, d.scope))))));
    PairIs(QuantityBoundCodec(), DimensionTail(), d.limit, (d.accounting, (d.restoration, (d.epoch, (d.sign, d.scope)))));
    PairIs(accounting, rest, d.accounting, (d.restoration, (d.epoch, (d.sign, d.scope))));
    PairIs(restoration, Pair(Nullable(EpochCodec()), end), d.restoration, (d.epoch, (d.sign, d.scope)));
    PairIs(Nullable(EpochCodec()), end, d.epoch, (d.sign, d.scope));
    PairIs(sign, ScopeCodec(), d.sign, d.scope);
    hide Pair, Mapped;
    IdentIs(d.dimensionId);
    QuantityIs(d.limit);
    MaybeEpoch(d.epoch);
    ScopeIs(d.scope);
    DimensionCodes(d.accounting, d.restoration, d.sign);
    hide Maybe, Nullable;
    DimensionJoins(Text(d.dimensionId), LayQuantity(d.limit), AccountingByte(d.accounting), RestorationByte(d.restoration),
                   Maybe(d.epoch, LayEpoch), SignByte(d.sign), LayScope(d.scope));
  }

  // ---- The seven kinds of term -------------------------------------------------------------------

  function PolarityByte(p: Polarity): Bytes {
    match p
    case MAX => [1]
    case MIN => [2]
  }

  function LayTerm(t: Term): Bytes {
    match t
    case SetTerm(m) => [1] + LayMembers(m)
    case RightTerm(r) => [2] + LayRight(r)
    case BoundTerm(id, polarity, value) => [3] + Text(id) + PolarityByte(polarity) + LayValue(value)
    case WindowTerm(domain, notBefore, expiresAt) => [4] + Text(domain) + I(notBefore, 8) + I(expiresAt, 8)
    case DimensionTerm(d) => [5] + LayDimension(d)
    case InvariantTerm(id, version, scope, params) =>
      [6] + Text(id) + U(Natural(version), 4) + Counted(scope, LayResource) + U(|params|, 2) + params
    case PolicyTerm(domain, stateKind, sources, requirement) =>
      [7] + Text(domain) + Text(stateKind) + Counted(sources, Text) + LayRequirement(requirement)
  }

  lemma PolarityIs(p: Polarity)
    ensures Enumerated(POLARITIES).write(p) == PolarityByte(p)
  {
    hide Enumerated;
    CodeIs(POLARITIES, p, match p case MAX => 0 case MIN => 1);
  }

  lemma BoundIs(t: Term)
    requires t.BoundTerm? && BoundShape().valid(BoundIn(t))
    ensures BoundShape().write(BoundIn(t)) == Text(t.boundId) + PolarityByte(t.polarity) + LayValue(t.value)
  {
    var polarity := Enumerated(POLARITIES);
    hide BoundValueCodec, LayValue, Text, Ident, Enumerated, PolarityByte;
    PairIs(Ident(), Pair(polarity, BoundValueCodec()), t.boundId, (t.polarity, t.value));
    PairIs(polarity, BoundValueCodec(), t.polarity, t.value);
    hide Pair;
    IdentIs(t.boundId);
    ValueIs(t.value);
    PolarityIs(t.polarity);
    assert Text(t.boundId) + (PolarityByte(t.polarity) + LayValue(t.value)) == Text(t.boundId) + PolarityByte(t.polarity) + LayValue(t.value);
  }

  lemma WindowIs(t: Term)
    requires t.WindowTerm? && WindowShape().valid(WindowIn(t))
    ensures WindowShape().write(WindowIn(t)) == Text(t.domain) + I(t.notBefore, 8) + I(t.expiresAt, 8)
  {
    hide Ident, SInt, Text, I;
    PairIs(Ident(), Pair(SInt(8), SInt(8)), t.domain, (t.notBefore, t.expiresAt));
    PairIs(SInt(8), SInt(8), t.notBefore, t.expiresAt);
    hide Pair;
    IdentIs(t.domain);
    SIntIs(t.notBefore, 8);
    SIntIs(t.expiresAt, 8);
    assert Text(t.domain) + (I(t.notBefore, 8) + I(t.expiresAt, 8)) == Text(t.domain) + I(t.notBefore, 8) + I(t.expiresAt, 8);
  }

  lemma ScopeListIs(scope: seq<Resource>)
    ensures InvariantScope().write(scope) == Counted(scope, LayResource)
  {
    hide ResourceCodec, LayResource;
    forall i | 0 <= i < |scope| ensures ResourceCodec(Always).write(scope[i]) == LayResource(scope[i]) {
      ResourceIs(Always, scope[i]);
    }
    SetIs(ResourceCodec(Always), MAX_INVARIANT_SCOPE, Always, scope, LayResource);
  }

  lemma OpaqueIs(params: Bytes)
    ensures OpaqueCodec(MAX_INVARIANT_PARAMS_BYTES).write(params) == U(|params|, 2) + params
  {
    DigitsAre(|params|, 2);
  }

  lemma InvariantIs(t: Term)
    requires t.InvariantTerm? && InvariantShape().valid(InvariantIn(t))
    ensures InvariantShape().write(InvariantIn(t))
         == Text(t.invariantId) + U(Natural(t.version), 4) + Counted(t.scope, LayResource) + U(|t.params|, 2) + t.params
  {
    var params := OpaqueCodec(MAX_INVARIANT_PARAMS_BYTES);
    hide Ident, UInt, InvariantScope, Text, U, LayResource, Counted;
    PairIs(Ident(), Pair(UInt(4), Pair(InvariantScope(), params)), t.invariantId, (t.version, (t.scope, t.params)));
    PairIs(UInt(4), Pair(InvariantScope(), params), t.version, (t.scope, t.params));
    PairIs(InvariantScope(), params, t.scope, t.params);
    hide Pair;
    IdentIs(t.invariantId);
    NaturalIs(t.version, 4);
    ScopeListIs(t.scope);
    OpaqueIs(t.params);
    hide OpaqueCodec;
    var a, b, c, d := Text(t.invariantId), U(Natural(t.version), 4), Counted(t.scope, LayResource), U(|t.params|, 2);
    assert a + (b + (c + (d + t.params))) == a + b + c + d + t.params;
  }

  lemma SourcesAre(sources: seq<string>)
    ensures SourceSet().write(sources) == Counted(sources, Text)
  {
    hide Ident, Text;
    forall i | 0 <= i < |sources| ensures Ident().write(sources[i]) == Text(sources[i]) {
      IdentIs(sources[i]);
    }
    SetIs(Ident(), MAX_ADMITTED_SOURCES, Always, sources, Text);
  }

  lemma PolicyTermIs(t: Term)
    requires t.PolicyTerm? && PolicyShape().valid(PolicyIn(t))
    ensures PolicyShape().write(PolicyIn(t)) == Text(t.policyDomain) + Text(t.stateKind) + Counted(t.sources, Text) + LayRequirement(t.requirement)
  {
    hide LayRequirement, RequirementCodec, Ident, SourceSet, Text, Counted;
    PairIs(Ident(), Pair(Ident(), Pair(SourceSet(), RequirementCodec())), t.policyDomain, (t.stateKind, (t.sources, t.requirement)));
    PairIs(Ident(), Pair(SourceSet(), RequirementCodec()), t.stateKind, (t.sources, t.requirement));
    PairIs(SourceSet(), RequirementCodec(), t.sources, t.requirement);
    hide Pair;
    IdentIs(t.policyDomain);
    IdentIs(t.stateKind);
    SourcesAre(t.sources);
    RequirementIs(t.requirement);
    var a, b, c, d := Text(t.policyDomain), Text(t.stateKind), Counted(t.sources, Text), LayRequirement(t.requirement);
    assert a + (b + (c + d)) == a + b + c + d;
  }

  // Every valid term is written with its kind's code and its fields in this order.
  lemma TermIs(t: Term)
    requires TermCodec().valid(t)
    ensures TermCodec().write(t) == LayTerm(t)
  {
    if t.InvariantTerm? {
      InvariantTermIs(t);
    } else if t.PolicyTerm? {
      StatePolicyTermIs(t);
    } else {
      GrantingTermIs(t);
    }
  }

  lemma GrantingTermIs(t: Term)
    requires TermCodec().valid(t) && !t.InvariantTerm? && !t.PolicyTerm?
    ensures TermCodec().write(t) == LayTerm(t)
  {
    hide MembersCodec, RightCodec, BoundShape, WindowShape, DimensionCodec, InvariantShape, PolicyShape, LayMembers, LayRight, LayValue,
      LayDimension, LayRequirement, Counted, Text, I, U, LayResource, PolarityByte, Mapped;
    ChoiceIs(TermCode, TermBranch, t);
    hide Choice;
    match t
    case SetTerm(m) =>
      MappedIs(MembersCodec(), SetTermOf, MembersIn, IsSetTerm, t);
      MembersAre(m);
    case RightTerm(r) =>
      MappedIs(RightCodec(), RightTermOf, RightIn, IsRightTerm, t);
      RightIs(r);
    case BoundTerm(id, polarity, value) =>
      MappedIs(BoundShape(), BoundTermOf, BoundIn, IsBoundTerm, t);
      BoundIs(t);
      assert [3] + (Text(id) + PolarityByte(polarity) + LayValue(value)) == LayTerm(t);
    case WindowTerm(domain, notBefore, expiresAt) =>
      MappedIs(WindowShape(), WindowTermOf, WindowIn, ValidWindow, t);
      WindowIs(t);
      assert [4] + (Text(domain) + I(notBefore, 8) + I(expiresAt, 8)) == LayTerm(t);
    case DimensionTerm(d) =>
      MappedIs(DimensionCodec(), DimensionTermOf, DimensionIn, IsDimensionTerm, t);
      DimensionIs(d);
  }

  lemma InvariantTermIs(t: Term)
    requires TermCodec().valid(t) && t.InvariantTerm?
    ensures TermCodec().write(t) == LayTerm(t)
  {
    hide MembersCodec, RightCodec, BoundShape, WindowShape, DimensionCodec, InvariantShape, PolicyShape, LayMembers, LayRight, LayValue,
      LayDimension, LayRequirement, Counted, Text, I, U, LayResource, PolarityByte, Mapped;
    ChoiceIs(TermCode, TermBranch, t);
    hide Choice;
    MappedIs(InvariantShape(), InvariantTermOf, InvariantIn, IsInvariantTerm, t);
    InvariantIs(t);
    match t
    case InvariantTerm(id, version, scope, params) =>
      assert [6] + (Text(id) + U(Natural(version), 4) + Counted(scope, LayResource) + U(|params|, 2) + params) == LayTerm(t);
  }

  lemma StatePolicyTermIs(t: Term)
    requires TermCodec().valid(t) && t.PolicyTerm?
    ensures TermCodec().write(t) == LayTerm(t)
  {
    hide MembersCodec, RightCodec, BoundShape, WindowShape, DimensionCodec, InvariantShape, PolicyShape, LayMembers, LayRight, LayValue,
      LayDimension, LayRequirement, Counted, Text, I, U, LayResource, PolarityByte, Mapped;
    ChoiceIs(TermCode, TermBranch, t);
    hide Choice;
    MappedIs(PolicyShape(), PolicyTermOf, PolicyIn, IsPolicyTerm, t);
    PolicyTermIs(t);
    match t
    case PolicyTerm(domain, stateKind, sources, requirement) =>
      assert [7] + (Text(domain) + Text(stateKind) + Counted(sources, Text) + LayRequirement(requirement)) == LayTerm(t);
  }

  // ---- Grants and policies -----------------------------------------------------------------------

  // A root names its issuer; a delegation its parent first, then its issuer.
  function LayLineage(l: Lineage<Bytes>): Bytes {
    match l
    case ROOT(issuer) => [1] + LayParty(issuer)
    case DELEGATION(parent, issuer) => [2] + parent + LayParty(issuer)
  }

  // Tag, version 1, lineage, principal, holder, the two ends of the window, the terms, the nonce.
  function LayGrant(g: Grant<Bytes>): Bytes {
    Text("mandate-core/v1/authority") + U(1, 2) + LayLineage(g.lineage) + LayParty(g.principal) + LayParty(g.holder)
    + I(g.notBefore, 8) + I(g.expiresAt, 8) + Counted(g.terms, LayTerm) + U(Natural(g.nonce), 8)
  }

  // Tag, version 1, principal, sequence, the terms, the nonce.
  function LayPolicy(p: Policy): Bytes {
    Text("mandate-core/v1/principal-policy") + U(1, 2) + LayParty(p.principal) + U(Natural(p.sequence), 8) + Counted(p.terms, LayTerm)
    + U(Natural(p.nonce), 8)
  }

  lemma LineageIs(l: Lineage<Bytes>)
    requires LineageCodec().valid(l)
    ensures LineageCodec().write(l) == LayLineage(l)
  {
    hide PartyCodec, LayParty, DigestCodec;
    ChoiceIs(LineageCode, LineageBranch, l);
    hide Choice;
    PartyIs(l.issuer);
    match l
    case ROOT(issuer) => MappedIs(PartyCodec(), RootOf, IssuerIn, IsRoot, l);
    case DELEGATION(parent, issuer) =>
      MappedIs(Pair(DigestCodec(false), PartyCodec()), DelegationOf, DelegationIn, IsDelegation, l);
      PairIs(DigestCodec(false), PartyCodec(), parent, issuer);
      DigestIs(false, parent);
      assert [2] + (parent + LayParty(issuer)) == [2] + parent + LayParty(issuer);
  }

  lemma TermsValid(terms: seq<Term>)
    requires TermSet(MAX_GRANT_TERMS).valid(terms)
    ensures forall i :: 0 <= i < |terms| ==> TermCodec().valid(terms[i])
  {
    hide TermCodec;
  }

  lemma TermsAre(terms: seq<Term>)
    requires TermSet(MAX_GRANT_TERMS).valid(terms)
    ensures TermSet(MAX_GRANT_TERMS).write(terms) == Counted(terms, LayTerm)
  {
    hide TermCodec, LayTerm, DistinctKeys;
    TermsValid(terms);
    forall i | 0 <= i < |terms| ensures TermCodec().write(terms[i]) == LayTerm(terms[i]) {
      TermIs(terms[i]);
    }
    SetIs(TermCodec(), MAX_GRANT_TERMS, DistinctKeys, terms, LayTerm);
  }

  lemma HeaderIs<T(!new)>(tag: string, c: Codec<T>, x: T)
    ensures Encode(tag, c, x) == Text(tag) + U(1, 2) + c.write(x)
  {
    TextIs(Always, tag);
    DigitsAre(1, 2);
    assert Text(tag) + (U(1, 2) + c.write(x)) == Text(tag) + U(1, 2) + c.write(x);
  }

  lemma GrantTailIs(g: Grant<Bytes>)
    requires GrantTail().valid((g.notBefore, (g.expiresAt, (g.terms, g.nonce))))
    ensures GrantTail().write((g.notBefore, (g.expiresAt, (g.terms, g.nonce))))
         == I(g.notBefore, 8) + I(g.expiresAt, 8) + Counted(g.terms, LayTerm) + U(Natural(g.nonce), 8)
  {
    var terms := TermSet(MAX_GRANT_TERMS);
    hide TermSet, Counted, LayTerm, SInt, UInt, I, U;
    PairIs(SInt(8), Pair(SInt(8), Pair(terms, UInt(8))), g.notBefore, (g.expiresAt, (g.terms, g.nonce)));
    PairIs(SInt(8), Pair(terms, UInt(8)), g.expiresAt, (g.terms, g.nonce));
    PairIs(terms, UInt(8), g.terms, g.nonce);
    hide Pair;
    SIntIs(g.notBefore, 8);
    SIntIs(g.expiresAt, 8);
    TermsAre(g.terms);
    NaturalIs(g.nonce, 8);
    var a, b, c, d := I(g.notBefore, 8), I(g.expiresAt, 8), Counted(g.terms, LayTerm), U(Natural(g.nonce), 8);
    assert a + (b + (c + d)) == a + b + c + d;
  }

  lemma GrantBodyIs(g: Grant<Bytes>)
    requires ValidGrant(g)
    ensures GrantCodec().write(g)
         == LayLineage(g.lineage) + LayParty(g.principal) + LayParty(g.holder)
            + I(g.notBefore, 8) + I(g.expiresAt, 8) + Counted(g.terms, LayTerm) + U(Natural(g.nonce), 8)
  {
    hide GrantTail, LineageCodec, PartyCodec, Counted, LayTerm, LayLineage, LayParty, I, U;
    var end := (g.notBefore, (g.expiresAt, (g.terms, g.nonce)));
    MappedIs(GrantShape(), GrantOf, PartsOfGrant, CoherentGrant, g);
    PairIs(LineageCodec(), Pair(PartyCodec(), Pair(PartyCodec(), GrantTail())), g.lineage, (g.principal, (g.holder, end)));
    PairIs(PartyCodec(), Pair(PartyCodec(), GrantTail()), g.principal, (g.holder, end));
    PairIs(PartyCodec(), GrantTail(), g.holder, end);
    hide Pair, Mapped;
    LineageIs(g.lineage);
    PartyIs(g.principal);
    PartyIs(g.holder);
    GrantTailIs(g);
    DimensionJoins(LayLineage(g.lineage), LayParty(g.principal), LayParty(g.holder), I(g.notBefore, 8), I(g.expiresAt, 8),
                   Counted(g.terms, LayTerm), U(Natural(g.nonce), 8));
    var a, b, c := LayLineage(g.lineage), LayParty(g.principal), LayParty(g.holder);
    var d, e, f, h := I(g.notBefore, 8), I(g.expiresAt, 8), Counted(g.terms, LayTerm), U(Natural(g.nonce), 8);
    assert d + e + f + h == d + (e + (f + h));
  }

  // A grant's identity preimage, byte for byte; and those bytes are read as that grant.
  lemma GrantIs(g: Grant<Bytes>)
    requires ValidGrant(g)
    ensures EncodeGrant(g) == LayGrant(g)
    ensures DecodeGrant(LayGrant(g)) == Some(Decoded(g, |LayGrant(g)|, 0))
  {
    hide GrantCodec, Counted, LayTerm, LayLineage, LayParty, I, U, Text, Encode, DecodeTagged;
    HeaderIs(AUTHORITY_TAG, GrantCodec(), g);
    GrantBodyIs(g);
    var head := Text("mandate-core/v1/authority") + U(1, 2);
    var a, b, c := LayLineage(g.lineage), LayParty(g.principal), LayParty(g.holder);
    var d, e, f, h := I(g.notBefore, 8), I(g.expiresAt, 8), Counted(g.terms, LayTerm), U(Natural(g.nonce), 8);
    EightJoin(head, a, b, c, d, e, f, h);
    GrantGood();
    hide LayGrant;
    DecodeEncode(AUTHORITY_TAG, GrantCodec(), g);
  }

  lemma EightJoin(head: Bytes, a: Bytes, b: Bytes, c: Bytes, d: Bytes, e: Bytes, f: Bytes, h: Bytes)
    ensures head + (a + b + c + d + e + f + h) == head + a + b + c + d + e + f + h
  {
    assert head + (a + b + c + d + e + f + h) == (head + (a + b + c + d + e + f)) + h;
    assert head + (a + b + c + d + e + f) == (head + (a + b + c + d + e)) + f;
    assert head + (a + b + c + d + e) == (head + (a + b + c + d)) + e;
    assert head + (a + b + c + d) == head + a + b + c + d;
  }

  // A policy's identity preimage, byte for byte.
  lemma PolicyIs(p: Policy)
    requires PolicyObjectCodec().valid(p)
    ensures Encode(PRINCIPAL_POLICY_TAG, PolicyObjectCodec(), p) == LayPolicy(p)
    ensures DecodeTagged(PRINCIPAL_POLICY_TAG, PolicyObjectCodec(), LayPolicy(p)) == Some(Decoded(p, |LayPolicy(p)|, 0))
  {
    hide PolicyObjectCodec, Counted, LayTerm, LayParty, U, Text, Encode, DecodeTagged;
    HeaderIs(PRINCIPAL_POLICY_TAG, PolicyObjectCodec(), p);
    PolicyBodyIs(p);
    PolicyRoundTrips(p);
    var head := Text("mandate-core/v1/principal-policy") + U(1, 2);
    var a, b, c, d := LayParty(p.principal), U(Natural(p.sequence), 8), Counted(p.terms, LayTerm), U(Natural(p.nonce), 8);
    assert head + (a + b + c + d) == head + a + b + c + d;
  }

  lemma PolicyBodyIs(p: Policy)
    requires PolicyObjectCodec().valid(p)
    ensures PolicyObjectCodec().write(p) == LayParty(p.principal) + U(Natural(p.sequence), 8) + Counted(p.terms, LayTerm) + U(Natural(p.nonce), 8)
  {
    var terms := TermSet(MAX_GRANT_TERMS);
    hide PartyCodec, TermSet, UInt, Counted, LayTerm, LayParty, U;
    MappedIs(PolicyObjectShape(), PolicyOf, PartsOfPolicy, ConstrainsOnly, p);
    PairIs(PartyCodec(), Pair(UInt(8), Pair(terms, UInt(8))), p.principal, (p.sequence, (p.terms, p.nonce)));
    PairIs(UInt(8), Pair(terms, UInt(8)), p.sequence, (p.terms, p.nonce));
    PairIs(terms, UInt(8), p.terms, p.nonce);
    hide Pair, Mapped;
    PartyIs(p.principal);
    TermsAre(p.terms);
    NaturalIs(p.sequence, 8);
    NaturalIs(p.nonce, 8);
    var a, b, c, d := LayParty(p.principal), U(Natural(p.sequence), 8), Counted(p.terms, LayTerm), U(Natural(p.nonce), 8);
    assert a + (b + (c + d)) == a + b + c + d;
  }
}
