// Which grants, policies and terms may be written and are accepted, field by field
// (packages/core/src/{identifiers,module,quantity,state,terms,authority}.ts).
module WireRules {
  import opened Common
  import opened Core
  import opened Canonical
  import opened Codec
  import opened CodecSets
  import opened Wire
  import opened Objects
  import opened Layout

  // ---- Ranges ------------------------------------------------------------------------------------

  lemma {:induction false} PowerAdds(a: nat, b: nat)
    ensures Power256(a + b) == Power256(a) * Power256(b)
  {
    if a > 0 {
      PowerAdds(a - 1, b);
      var p, q := Power256(a - 1), Power256(b);
      assert 256 * (p * q) == (256 * p) * q;
    }
  }

  lemma Ranges()
    ensures Base(1) == 256 && Base(4) == UINT32_MAX + 1 && Base(8) == UINT64_MAX + 1 && Base(32) == UINT256_LIMIT
  {
    BaseIs(1);
    BaseIs(4);
    BaseIs(8);
    BaseIs(32);
    assert Power256(0) == 1 && Power256(1) == 256 * Power256(0);
    PowerAdds(1, 1);
    PowerAdds(2, 2);
    PowerAdds(4, 4);
    PowerAdds(8, 8);
    PowerAdds(16, 16);
  }

  lemma UIntRange(x: int)
    ensures UInt(1).valid(x) <==> 0 <= x <= 255
    ensures UInt(4).valid(x) <==> 0 <= x <= UINT32_MAX
    ensures UInt(8).valid(x) <==> 0 <= x <= UINT64_MAX
    ensures UInt(32).valid(x) <==> 0 <= x <= UINT256_MAX
    ensures SInt(8).valid(x) <==> INT64_MIN <= x <= INT64_MAX
  {
    Ranges();
    hide Base;
  }

  lemma TextRule(rule: string -> bool, s: string)
    ensures TextCodec(rule).valid(s) <==> rule(s) && PlainText(s) && |s| <= 1024
  {
  }

  lemma IdentRule(s: string)
    ensures Ident().valid(s) <==> ValidIdentifier(s)
  {
    TextRule(ValidIdentifier, s);
    if ValidIdentifier(s) {
      forall i | 0 <= i < |s| ensures s[i] as int < 128 {
        assert IsAlphanumeric(s[i]) || IsSeparator(s[i]);
      }
    }
  }

  lemma UnitRule(s: string)
    ensures TextCodec(ValidUnit).valid(s) <==> ValidUnit(s)
  {
    TextRule(ValidUnit, s);
    if ValidUnit(s) {
      forall i | 0 <= i < |s| ensures s[i] as int < 128 {
        assert IsUnitEdge(s[i]) || s[i] == '.' || s[i] == '_' || s[i] == '-';
      }
    }
  }

  // ---- References --------------------------------------------------------------------------------

  predicate Named(d: Bytes) {
    |d| == 32 && exists i :: 0 <= i < 32 && d[i] != 0
  }

  // An address-kind party is a lower-case hexadecimal address of 20 bytes.
  predicate WellParty(p: Party) {
    && ValidIdentifier(p.kind) && ValidIdentifier(p.value)
    && (p.kind == "eip155-address" ==>
          |p.value| == 42 && p.value[..2] == "0x" && forall i :: 2 <= i < 42 ==> '0' <= p.value[i] <= '9' || 'a' <= p.value[i] <= 'f')
  }

  predicate WellModule(m: ModuleRef) {
    ValidIdentifier(m.domainId) && ValidIdentifier(m.moduleId) && 0 <= m.version <= UINT32_MAX && Named(m.digest)
  }

  predicate WellAdapter(a: AdapterRef) {
    ValidIdentifier(a.adapterId) && 0 <= a.version <= UINT32_MAX && Named(a.digest)
  }

  predicate WellResource(r: Resource) {
    ValidIdentifier(r.domain) && ValidIdentifier(r.localId)
  }

  predicate WellActionType(a: ActionTypeRef) {
    ValidIdentifier(a.domain) && ValidIdentifier(a.actionType)
  }

  lemma NamedIs(d: Bytes)
    ensures DigestCodec(true).valid(d) <==> Named(d)
  {
  }

  lemma PartyRule(p: Party)
    ensures PartyCodec().valid(p) <==> WellParty(p)
  {
    hide ValidIdentifier, Ident;
    MappedIs(Pair(Ident(), Ident()), PartyOf, PartyParts, ValidParty, p);
    PairIs(Ident(), Ident(), p.kind, p.value);
    IdentRule(p.kind);
    IdentRule(p.value);
    assert |p.value| == 42 ==> (p.value[..2] == "0x" <==> p.value[0] == '0' && p.value[1] == 'x');
  }

  lemma ResourceRule(rule: Resource -> bool, r: Resource)
    ensures ResourceCodec(rule).valid(r) <==> WellResource(r) && rule(r)
  {
    var kinds := Enumerated(RESOURCE_KINDS);
    hide ValidIdentifier, Ident, Enumerated;
    MappedIs(Pair(Ident(), Pair(kinds, Ident())), ResourceOf, ResourceParts, rule, r);
    PairIs(Ident(), Pair(kinds, Ident()), r.domain, (r.kind, r.localId));
    PairIs(kinds, Ident(), r.kind, r.localId);
    hide Pair, Mapped;
    IdentRule(r.domain);
    IdentRule(r.localId);
    KindListed(r.kind);
  }

  lemma KindListed(k: ResourceKind)
    ensures Enumerated(RESOURCE_KINDS).valid(k)
  {
  }

  lemma ModuleRule(m: ModuleRef)
    ensures ModuleCodec().valid(m) <==> WellModule(m)
  {
    hide ValidIdentifier, Ident, UInt, DigestCodec, Named;
    MappedIs(ModuleShape(), ModuleOf, ModuleParts, Always, m);
    FourPairs(Ident(), Ident(), UInt(4), DigestCodec(true), m.domainId, m.moduleId, m.version, m.digest);
    hide Pair, Mapped;
    assert Always(m);
    IdentRule(m.domainId);
    IdentRule(m.moduleId);
    UIntRange(m.version);
    NamedIs(m.digest);
  }

  lemma AdapterRule(a: AdapterRef)
    ensures AdapterCodec().valid(a) <==> WellAdapter(a)
  {
    hide ValidIdentifier, Ident, UInt, DigestCodec, Named;
    MappedIs(Pair(Ident(), Pair(UInt(4), DigestCodec(true))), AdapterOf, AdapterParts, Always, a);
    PairIs(Ident(), Pair(UInt(4), DigestCodec(true)), a.adapterId, (a.version, a.digest));
    PairIs(UInt(4), DigestCodec(true), a.version, a.digest);
    hide Pair, Mapped;
    assert Always(a);
    IdentRule(a.adapterId);
    UIntRange(a.version);
    NamedIs(a.digest);
  }

  lemma ActionTypeRule(a: ActionTypeRef)
    ensures ActionTypeCodec().valid(a) <==> WellActionType(a)
  {
    hide ValidIdentifier, Ident;
    MappedIs(Pair(Ident(), Ident()), ActionTypeOf, ActionTypeParts, Always, a);
    PairIs(Ident(), Ident(), a.domain, a.actionType);
    assert Always(a);
    IdentRule(a.domain);
    IdentRule(a.actionType);
  }

  // ---- Sets --------------------------------------------------------------------------------------

  // At most `max` members, each well formed, strictly ascending by their bytes.
  ghost predicate WellSet<T>(xs: seq<T>, max: nat, well: T -> bool, lay: T -> Bytes) {
    && |xs| <= max && (forall i :: 0 <= i < |xs| ==> well(xs[i]))
    && forall i :: 0 <= i < |xs| - 1 ==> Below(lay(xs[i]), lay(xs[i + 1]))
  }

  lemma SetValid<T(!new)>(c: Codec<T>, max: nat, rule: seq<T> -> bool, xs: seq<T>)
    ensures SetOf(c, max, rule).valid(xs) <==> |xs| <= max && rule(xs) && (forall i :: 0 <= i < |xs| ==> c.valid(xs[i])) && Ascending(xs, c.write)
  {
  }

  lemma SetRule<T(!new)>(c: Codec<T>, max: nat, rule: seq<T> -> bool, xs: seq<T>, well: T -> bool, lay: T -> Bytes)
    requires forall x: T :: c.valid(x) <==> well(x)
    requires forall x: T :: well(x) ==> c.write(x) == lay(x)
    ensures SetOf(c, max, rule).valid(xs) <==> WellSet(xs, max, well, lay) && rule(xs)
  {
    hide Below;
    SetValid(c, max, rule, xs);
    if WellSet(xs, max, well, lay) {
      forall i | 0 < i < |xs| ensures Below(c.write(xs[i - 1]), c.write(xs[i])) {
        var k := i - 1;
        assert Below(lay(xs[k]), lay(xs[k + 1]));
      }
    }
    if SetOf(c, max, rule).valid(xs) {
      forall i | 0 <= i < |xs| - 1 ensures Below(lay(xs[i]), lay(xs[i + 1])) {
        var k := i + 1;
        assert Below(c.write(xs[k - 1]), c.write(xs[k]));
      }
    }
  }

  predicate WellMarket(r: Resource) { WellResource(r) && r.kind.MARKET? }

  predicate WellAsset(r: Resource) { WellResource(r) && (r.kind.CANONICAL_ASSET? || r.kind.REPRESENTATION_ASSET?) }

  predicate WellVenue(r: Resource) { WellResource(r) && r.kind.VENUE? }

  predicate WellRecipient(r: Resource) { WellResource(r) && (r.kind.RECIPIENT? || r.kind.ACCOUNT?) }

  predicate WellAccount(r: Resource) { WellResource(r) && r.kind.ACCOUNT? }

  // A set of one vocabulary, of that vocabulary's own members, at most 256 of them.
  ghost predicate WellMembers(m: Members) {
    match m
    case MODULES(xs) => WellSet(xs, 256, WellModule, LayModule)
    case ADAPTERS(xs) => WellSet(xs, 256, WellAdapter, LayAdapter)
    case MARKETS(xs) => WellSet(xs, 256, WellMarket, LayResource)
    case ASSETS(xs) => WellSet(xs, 256, WellAsset, LayResource)
    case VENUES(xs) => WellSet(xs, 256, WellVenue, LayResource)
    case RECIPIENTS(xs) => WellSet(xs, 256, WellRecipient, LayResource)
    case ACTION_TYPES(xs) => WellSet(xs, 256, WellActionType, LayActionType)
  }

  lemma ResourceSetRule(rule: Resource -> bool, well: Resource -> bool, max: nat, xs: seq<Resource>)
    requires forall r :: well(r) <==> WellResource(r) && rule(r)
    ensures SetOf(ResourceCodec(rule), max, Always).valid(xs) <==> WellSet(xs, max, well, LayResource)
  {
    hide ResourceCodec, LayResource, WellSet, SetOf, WellResource;
    forall r: Resource
      ensures ResourceCodec(rule).valid(r) <==> well(r)
      ensures ResourceCodec(rule).write(r) == LayResource(r)
    {
      ResourceRule(rule, r);
      ResourceIs(rule, r);
    }
    SetRule(ResourceCodec(rule), max, Always, xs, well, LayResource);
    assert Always(xs);
  }

  lemma ModuleSetRule(xs: seq<ModuleRef>)
    ensures SetOf(ModuleCodec(), 256, Always).valid(xs) <==> WellSet(xs, 256, WellModule, LayModule)
  {
    hide ModuleCodec, LayModule, WellSet, SetOf, WellModule;
    forall m: ModuleRef ensures ModuleCodec().valid(m) <==> WellModule(m) {
      ModuleRule(m);
    }
    forall m: ModuleRef | WellModule(m) ensures ModuleCodec().write(m) == LayModule(m) {
      ModuleIs(m);
    }
    SetRule(ModuleCodec(), 256, Always, xs, WellModule, LayModule);
    assert Always(xs);
  }

  lemma AdapterSetRule(xs: seq<AdapterRef>)
    ensures SetOf(AdapterCodec(), 256, Always).valid(xs) <==> WellSet(xs, 256, WellAdapter, LayAdapter)
  {
    hide AdapterCodec, LayAdapter, WellSet, SetOf, WellAdapter;
    forall a: AdapterRef ensures AdapterCodec().valid(a) <==> WellAdapter(a) {
      AdapterRule(a);
    }
    forall a: AdapterRef | WellAdapter(a) ensures AdapterCodec().write(a) == LayAdapter(a) {
      AdapterIs(a);
    }
    SetRule(AdapterCodec(), 256, Always, xs, WellAdapter, LayAdapter);
    assert Always(xs);
  }

  lemma ActionTypeSetRule(xs: seq<ActionTypeRef>)
    ensures SetOf(ActionTypeCodec(), 256, Always).valid(xs) <==> WellSet(xs, 256, WellActionType, LayActionType)
  {
    hide ActionTypeCodec, LayActionType, WellSet, SetOf, WellActionType;
    forall a: ActionTypeRef ensures ActionTypeCodec().valid(a) <==> WellActionType(a)
                            ensures ActionTypeCodec().write(a) == LayActionType(a) {
      ActionTypeRule(a);
      ActionTypeIs(a);
    }
    SetRule(ActionTypeCodec(), 256, Always, xs, WellActionType, LayActionType);
    assert Always(xs);
  }

  lemma ChoiceRule<T(!new)>(code: T -> int, branch: int -> Codec<T>, x: T)
    requires 0 <= code(x) < 256
    ensures Choice(code, branch).valid(x) <==> branch(code(x)).valid(x)
  {
  }

  lemma MembersRule(m: Members)
    ensures MembersCodec().valid(m) <==> WellMembers(m)
  {
    hide WellSet, SetOf, ModuleCodec, AdapterCodec, ActionTypeCodec, ResourceCodec, Mapped, WellModule, WellAdapter, WellResource, WellActionType;
    ChoiceRule(VocabularyCode, MembersBranch, m);
    hide Choice;
    match m
    case MODULES(xs) =>
      MappedIs(MemberSet(ModuleCodec()), ModulesOf, ModulesIn, IsModules, m);
      ModuleSetRule(xs);
    case ADAPTERS(xs) =>
      MappedIs(MemberSet(AdapterCodec()), AdaptersOf, AdaptersIn, IsAdapters, m);
      AdapterSetRule(xs);
    case MARKETS(xs) =>
      MappedIs(MemberSet(ResourceCodec(IsMarket)), MarketsOf, ResourcesIn, IsMarkets, m);
      ResourceSetRule(IsMarket, WellMarket, 256, xs);
    case ASSETS(xs) =>
      MappedIs(MemberSet(ResourceCodec(IsAsset)), AssetsOf, ResourcesIn, IsAssets, m);
      ResourceSetRule(IsAsset, WellAsset, 256, xs);
    case VENUES(xs) =>
      MappedIs(MemberSet(ResourceCodec(IsVenue)), VenuesOf, ResourcesIn, IsVenues, m);
      ResourceSetRule(IsVenue, WellVenue, 256, xs);
    case RECIPIENTS(xs) =>
      MappedIs(MemberSet(ResourceCodec(IsRecipient)), RecipientsOf, ResourcesIn, IsRecipients, m);
      ResourceSetRule(IsRecipient, WellRecipient, 256, xs);
    case ACTION_TYPES(xs) =>
      MappedIs(MemberSet(ActionTypeCodec()), ActionTypesOf, ActionTypesIn, IsActionTypes, m);
      ActionTypeSetRule(xs);
  }

  // ---- Rights, bounds, requirements, dimensions --------------------------------------------------

  predicate WellRight(r: Right) {
    r.DELEGATE? ==> 1 <= r.maxDepth <= 7
  }

  lemma RightRule(r: Right)
    ensures RightCodec().valid(r) <==> WellRight(r)
  {
    hide UInt, Mapped;
    ChoiceRule(RightWireCode, RightBranch, r);
    hide Choice;
    if r.DELEGATE? {
      MappedIs(UInt(1), DelegateOf, DepthOf, ValidDelegate, r);
      UIntRange(r.maxDepth);
    }
  }

  // A count is measured in COUNT and nothing else is; at most 38 decimals, 256 bits.
  predicate WellQuantity(q: QuantityBound) {
    (q.kind.COUNT? <==> q.unit == "COUNT") && ValidUnit(q.unit) && q.decimals <= 38 && 0 <= q.atoms <= UINT256_MAX
  }

  predicate WellValue(v: BoundValue) {
    match v
    case QUANTITY(q) => WellQuantity(q)
    case RATIO(r) => 0 <= r.numerator <= UINT256_MAX && r.scale <= 38
  }

  lemma QuantityRule(q: QuantityBound)
    ensures QuantityBoundCodec().valid(q) <==> WellQuantity(q)
  {
    hide Enumerated, TextCodec, UInt, ValidUnit, QuantityBoundShape, Mapped;
    MappedIs(QuantityBoundShape(), QuantityBoundOf, QuantityBoundParts, ValidQuantityBound, q);
    QuantityShapeRule(q);
  }

  lemma QuantityShapeRule(q: QuantityBound)
    ensures QuantityBoundShape().valid(QuantityBoundParts(q)) <==> ValidUnit(q.unit) && q.decimals <= 255 && 0 <= q.atoms <= UINT256_MAX
  {
    hide Enumerated, TextCodec, UInt, ValidUnit;
    FourPairs(Enumerated(QUANTITY_KINDS), TextCodec(ValidUnit), UInt(1), UInt(32), q.kind, q.unit, q.decimals, q.atoms);
    hide Pair;
    UnitRule(q.unit);
    UIntRange(q.decimals);
    UIntRange(q.atoms);
    QuantityListed(q.kind);
  }

  lemma QuantityListed(k: QuantityKind)
    ensures Enumerated(QUANTITY_KINDS).valid(k)
  {
  }

  lemma ValueRule(v: BoundValue)
    ensures BoundValueCodec().valid(v) <==> WellValue(v)
  {
    hide QuantityBoundCodec, UInt, Mapped, WellQuantity;
    ChoiceRule(BoundValueCode, BoundValueBranch, v);
    hide Choice;
    match v
    case QUANTITY(q) =>
      MappedIs(QuantityBoundCodec(), QuantityValueOf, QuantityIn, IsQuantity, v);
      QuantityRule(q);
    case RATIO(r) =>
      MappedIs(RatioCodec(), RatioValueOf, RatioIn, IsRatio, v);
      MappedIs(Pair(UInt(32), UInt(1)), RatioOf, RatioParts, ValidRatio, r);
      PairIs(UInt(32), UInt(1), r.numerator, r.scale);
      UIntRange(r.numerator);
      UIntRange(r.scale);
  }

  predicate WellFreshness(f: Freshness) {
    match f
    case AGE(maxAge) => 0 <= maxAge <= UINT32_MAX
    case BLOCKS(behind) => 0 <= behind <= UINT64_MAX
    case SEQUENCE => true
    case VERSION(pinned, maxAge) => |pinned| == 32 && 0 <= maxAge <= UINT32_MAX
  }

  // Only trust that may be required, and no execution bounded by a freshness that does not measure time.
  predicate WellRequirement(r: Requirement) {
    && WellFreshness(r.freshness) && (r.minTrust.AUTHORITATIVE? || r.minTrust.VERIFIED?)
    && ValidIdentifier(r.minFinality.ladder) && ValidIdentifier(r.minFinality.level)
    && (r.atExecution.ENFORCED_BY_ARTIFACT? ==> ValidIdentifier(r.atExecution.artifactField))
    && (r.atExecution.BOUNDED_BY_FRESHNESS? ==> r.freshness.AGE? || r.freshness.VERSION?)
  }

  lemma FreshnessRule(f: Freshness)
    ensures FreshnessCodec().valid(f) <==> WellFreshness(f)
  {
    hide UInt, Mapped;
    ChoiceRule(FreshnessCode, FreshnessBranch, f);
    hide Choice;
    match f
    case AGE(maxAge) =>
      MappedIs(UInt(4), AgeOf, AgeIn, IsAge, f);
      UIntRange(maxAge);
    case BLOCKS(behind) =>
      MappedIs(UInt(8), BlocksOf, BlocksIn, IsBlocks, f);
      UIntRange(behind);
    case SEQUENCE =>
    case VERSION(pinned, maxAge) =>
      MappedIs(Pair(DigestCodec(false), UInt(4)), VersionOf, VersionIn, IsVersion, f);
      PairIs(DigestCodec(false), UInt(4), pinned, maxAge);
      UIntRange(maxAge);
  }

  lemma DependenceRule(d: Dependence)
    ensures DependenceCodec().valid(d) <==> (d.ENFORCED_BY_ARTIFACT? ==> ValidIdentifier(d.artifactField))
  {
    hide Ident, Mapped, ValidIdentifier;
    ChoiceRule(DependenceCode, DependenceBranch, d);
    hide Choice;
    if d.ENFORCED_BY_ARTIFACT? {
      MappedIs(Ident(), EnforcedOf, EnforcedIn, IsEnforced, d);
      IdentRule(d.artifactField);
    }
  }

  lemma IssueListed(t: TrustClass, a: AtIssue)
    ensures Enumerated(TRUST_CLASSES).valid(t) && Enumerated(AT_ISSUE_VALUES).valid(a)
  {
  }

  lemma RequirementRule(r: Requirement)
    ensures RequirementCodec().valid(r) <==> WellRequirement(r)
  {
    var trust, issue := Enumerated(TRUST_CLASSES), Enumerated(AT_ISSUE_VALUES);
    var end := (r.minFinality.ladder, (r.minFinality.level, (r.atIssue, r.atExecution)));
    hide FreshnessCodec, DependenceCodec, WellFreshness, Enumerated, Ident, ValidIdentifier;
    MappedIs(RequirementShape(), RequirementOf, PartsOfRequirement, CoherentRequirement, r);
    PairIs(FreshnessCodec(), Pair(trust, RequirementTail()), r.freshness, (r.minTrust, end));
    PairIs(trust, RequirementTail(), r.minTrust, end);
    FourPairs(Ident(), Ident(), issue, DependenceCodec(), r.minFinality.ladder, r.minFinality.level, r.atIssue, r.atExecution);
    hide Pair, Mapped;
    FreshnessRule(r.freshness);
    DependenceRule(r.atExecution);
    IssueListed(r.minTrust, r.atIssue);
    IdentRule(r.minFinality.ladder);
    IdentRule(r.minFinality.level);
  }

  // A counter of something countable: budgets restore not at all or by epoch, capacities as charged or by unit; an epoch
  // exactly for the second; a net sign only for a signed kind; a scope of the right kinds of resource.
  predicate WellDimension(d: Dimension) {
    && ValidIdentifier(d.dimensionId) && WellQuantity(d.limit)
    && !d.limit.kind.GROSS_EXPOSURE? && !d.limit.kind.NET_EXPOSURE?
    && (match d.restoration
        case NONE => d.accounting.BUDGET? && d.epoch.None?
        case EPOCH =>
          && d.accounting.BUDGET? && d.epoch.Some?
          && INT64_MIN <= d.epoch.value.anchor <= INT64_MAX && 1 <= d.epoch.value.lengthSeconds <= UINT32_MAX
        case AS_CHARGED => d.accounting.CAPACITY? && d.epoch.None?
        case UNITS => d.accounting.CAPACITY? && d.epoch.None?)
    && (d.sign.NET? ==> d.limit.kind.POSITION_SIZE? || d.limit.kind.NET_EXPOSURE? || d.limit.kind.PNL?)
    && (d.scope.asset.Some? ==> WellAsset(d.scope.asset.value)) && (d.scope.market.Some? ==> WellMarket(d.scope.market.value))
    && (d.scope.domain.Some? ==> ValidIdentifier(d.scope.domain.value)) && (d.scope.account.Some? ==> WellAccount(d.scope.account.value))
  }

  lemma EpochRule(e: Epoch)
    ensures EpochCodec().valid(e) <==> INT64_MIN <= e.anchor <= INT64_MAX && 0 <= e.lengthSeconds <= UINT32_MAX
  {
    hide SInt, UInt;
    MappedIs(Pair(SInt(8), UInt(4)), EpochOf, EpochParts, Always, e);
    PairIs(SInt(8), UInt(4), e.anchor, e.lengthSeconds);
    assert Always(e);
    UIntRange(e.anchor);
    UIntRange(e.lengthSeconds);
  }

  lemma MaybeRule<T(!new)>(c: Codec<T>, x: Option<T>)
    ensures Nullable(c).valid(x) <==> (x.Some? ==> c.valid(x.value))
  {
  }

  lemma ScopeRule(s: Scope)
    ensures ScopeCodec().valid(s) <==>
              && (s.asset.Some? ==> WellAsset(s.asset.value)) && (s.market.Some? ==> WellMarket(s.market.value))
              && (s.domain.Some? ==> ValidIdentifier(s.domain.value)) && (s.account.Some? ==> WellAccount(s.account.value))
  {
    var asset, market, account := ResourceCodec(IsAsset), ResourceCodec(IsMarket), ResourceCodec(IsAccount);
    hide ResourceCodec, Ident, ValidIdentifier;
    MappedIs(ScopeShape(), ScopeOf, PartsOfScope, Always, s);
    FourPairs(Nullable(asset), Nullable(market), Nullable(Ident()), Nullable(account), s.asset, s.market, s.domain, s.account);
    hide Pair, Mapped;
    assert Always(s);
    MaybeRule(asset, s.asset);
    MaybeRule(market, s.market);
    MaybeRule(account, s.account);
    MaybeRule(Ident(), s.domain);
    hide Nullable;
    if s.asset.Some? {
      ResourceRule(IsAsset, s.asset.value);
    }
    if s.market.Some? {
      ResourceRule(IsMarket, s.market.value);
    }
    if s.account.Some? {
      ResourceRule(IsAccount, s.account.value);
    }
    if s.domain.Some? {
      IdentRule(s.domain.value);
    }
  }

  lemma DimensionListed(a: Accounting, r: Restoration, s: SignMode)
    ensures Enumerated(ACCOUNTING_VALUES).valid(a) && Enumerated(RESTORATION_VALUES).valid(r) && Enumerated(SIGN_MODES).valid(s)
  {
  }

  lemma DimensionRule(d: Dimension)
    ensures DimensionCodec().valid(d) <==> WellDimension(d)
  {
    var accounting, restoration, sign := Enumerated(ACCOUNTING_VALUES), Enumerated(RESTORATION_VALUES), Enumerated(SIGN_MODES);
    var rest := (d.accounting, (d.restoration, (d.epoch, (d.sign, d.scope))));
    hide QuantityBoundCodec, EpochCodec, ScopeCodec, Enumerated, Ident, ValidIdentifier, ValidUnit, Nullable;
    MappedIs(DimensionShape(), DimensionOf, PartsOfDimension, ValidDimension, d);
    PairIs(Ident(), Pair(QuantityBoundCodec(), DimensionTail()), d.dimensionId, (d.limit, rest));
    PairIs(QuantityBoundCodec(), DimensionTail(), d.limit, rest);
    PairIs(accounting, Pair(restoration, Pair(Nullable(EpochCodec()), Pair(sign, ScopeCodec()))), d.accounting, rest.1);
    FourPairs(restoration, Nullable(EpochCodec()), sign, ScopeCodec(), d.restoration, d.epoch, d.sign, d.scope);
    hide Pair, Mapped;
    IdentRule(d.dimensionId);
    QuantityRule(d.limit);
    MaybeRule(EpochCodec(), d.epoch);
    if d.epoch.Some? {
      EpochRule(d.epoch.value);
    }
    ScopeRule(d.scope);
    DimensionListed(d.accounting, d.restoration, d.sign);
  }

  // ---- Terms -------------------------------------------------------------------------------------

  // A term of any of the seven kinds.
  ghost predicate WellTerm(t: Term) {
    match t
    case SetTerm(m) => WellMembers(m)
    case RightTerm(r) => WellRight(r)
    case BoundTerm(id, _, value) => ValidIdentifier(id) && WellValue(value)
    case WindowTerm(domain, notBefore, expiresAt) => ValidIdentifier(domain) && INT64_MIN <= notBefore < expiresAt <= INT64_MAX
    case DimensionTerm(d) => WellDimension(d)
    case InvariantTerm(id, version, scope, params) =>
      ValidIdentifier(id) && 0 <= version <= UINT32_MAX && WellSet(scope, 16, WellResource, LayResource) && |params| <= 1024
    case PolicyTerm(domain, stateKind, sources, requirement) =>
      ValidIdentifier(domain) && ValidIdentifier(stateKind) && WellSet(sources, 32, ValidIdentifier, Layout.Text) && WellRequirement(requirement)
  }

  lemma BoundRule(t: Term)
    requires t.BoundTerm?
    ensures BoundShape().valid(BoundIn(t)) <==> ValidIdentifier(t.boundId) && WellValue(t.value)
  {
    hide BoundValueCodec, Ident, Enumerated, ValidIdentifier, WellValue;
    PairIs(Ident(), Pair(Enumerated(POLARITIES), BoundValueCodec()), t.boundId, (t.polarity, t.value));
    PairIs(Enumerated(POLARITIES), BoundValueCodec(), t.polarity, t.value);
    hide Pair;
    PolarityListed(t.polarity);
    IdentRule(t.boundId);
    ValueRule(t.value);
  }

  lemma PolarityListed(p: Polarity)
    ensures Enumerated(POLARITIES).valid(p)
  {
  }

  lemma WindowRule(t: Term)
    requires t.WindowTerm?
    ensures WindowShape().valid(WindowIn(t)) <==>
              ValidIdentifier(t.domain) && INT64_MIN <= t.notBefore <= INT64_MAX && INT64_MIN <= t.expiresAt <= INT64_MAX
  {
    hide Ident, SInt, ValidIdentifier;
    PairIs(Ident(), Pair(SInt(8), SInt(8)), t.domain, (t.notBefore, t.expiresAt));
    PairIs(SInt(8), SInt(8), t.notBefore, t.expiresAt);
    hide Pair;
    IdentRule(t.domain);
    UIntRange(t.notBefore);
    UIntRange(t.expiresAt);
  }

  lemma InvariantRule(t: Term)
    requires t.InvariantTerm?
    ensures InvariantShape().valid(InvariantIn(t)) <==> WellTerm(t)
  {
    var params := OpaqueCodec(MAX_INVARIANT_PARAMS_BYTES);
    hide Ident, UInt, InvariantScope, ValidIdentifier, WellSet;
    FourPairs(Ident(), UInt(4), InvariantScope(), params, t.invariantId, t.version, t.scope, t.params);
    hide Pair;
    IdentRule(t.invariantId);
    UIntRange(t.version);
    ScopeSetRule(t.scope);
    OpaqueRule(t.params);
  }

  lemma ScopeSetRule(scope: seq<Resource>)
    ensures InvariantScope().valid(scope) <==> WellSet(scope, 16, WellResource, LayResource)
  {
    hide ResourceCodec, WellSet, SetOf, WellResource, LayResource;
    forall r: Resource ensures Always(r) {
    }
    ResourceSetRule(Always, WellResource, 16, scope);
  }

  lemma OpaqueRule(params: Bytes)
    ensures OpaqueCodec(MAX_INVARIANT_PARAMS_BYTES).valid(params) <==> |params| <= 1024
  {
  }

  lemma SourcesRule(sources: seq<string>)
    ensures SourceSet().valid(sources) <==> WellSet(sources, 32, ValidIdentifier, Layout.Text)
  {
    hide Ident, WellSet, SetOf, ValidIdentifier, Layout.Text;
    forall s: string ensures Ident().valid(s) <==> ValidIdentifier(s) ensures Ident().write(s) == Layout.Text(s) {
      IdentRule(s);
      IdentIs(s);
    }
    SetRule(Ident(), MAX_ADMITTED_SOURCES, Always, sources, ValidIdentifier, Layout.Text);
    assert Always(sources);
  }

  lemma PolicyTermRule(t: Term)
    requires t.PolicyTerm?
    ensures PolicyShape().valid(PolicyIn(t)) <==> WellTerm(t)
  {
    hide Ident, SourceSet, RequirementCodec, ValidIdentifier, WellSet, WellRequirement;
    FourPairs(Ident(), Ident(), SourceSet(), RequirementCodec(), t.policyDomain, t.stateKind, t.sources, t.requirement);
    hide Pair;
    IdentRule(t.policyDomain);
    IdentRule(t.stateKind);
    SourcesRule(t.sources);
    RequirementRule(t.requirement);
  }

  // The codec takes exactly the well-formed terms.
  lemma TermRule(t: Term)
    ensures TermCodec().valid(t) <==> WellTerm(t)
  {
    hide MembersCodec, RightCodec, BoundShape, WindowShape, DimensionCodec, InvariantShape, PolicyShape, WellMembers, WellRight, WellValue,
      WellDimension, WellSet, ValidIdentifier, Mapped;
    ChoiceRule(TermCode, TermBranch, t);
    hide Choice;
    match t
    case SetTerm(m) =>
      MappedIs(MembersCodec(), SetTermOf, MembersIn, IsSetTerm, t);
      MembersRule(m);
    case RightTerm(r) =>
      MappedIs(RightCodec(), RightTermOf, RightIn, IsRightTerm, t);
      RightRule(r);
    case BoundTerm(id, polarity, value) =>
      MappedIs(BoundShape(), BoundTermOf, BoundIn, IsBoundTerm, t);
      BoundRule(t);
    case WindowTerm(domain, notBefore, expiresAt) =>
      MappedIs(WindowShape(), WindowTermOf, WindowIn, ValidWindow, t);
      WindowRule(t);
    case DimensionTerm(d) =>
      MappedIs(DimensionCodec(), DimensionTermOf, DimensionIn, IsDimensionTerm, t);
      DimensionRule(d);
    case InvariantTerm(id, version, scope, params) =>
      MappedIs(InvariantShape(), InvariantTermOf, InvariantIn, IsInvariantTerm, t);
      InvariantRule(t);
    case PolicyTerm(domain, stateKind, sources, requirement) =>
      MappedIs(PolicyShape(), PolicyTermOf, PolicyIn, IsPolicyTerm, t);
      PolicyTermRule(t);
  }

  // ---- Grants and policies -----------------------------------------------------------------------

  // No two terms for the same thing: a vocabulary, a right, a side of a named bound, a dimension, and so on.
  predicate KeysDiffer(terms: seq<Term>) {
    forall i, j :: 0 <= i < j < |terms| ==> !SameKey(terms[i], terms[j])
  }

  predicate SameKey(s: Term, t: Term) {
    match (s, t)
    case (SetTerm(m), SetTerm(n)) =>
      (m.MODULES? && n.MODULES?) || (m.ADAPTERS? && n.ADAPTERS?) || (m.MARKETS? && n.MARKETS?) || (m.ASSETS? && n.ASSETS?)
      || (m.VENUES? && n.VENUES?) || (m.RECIPIENTS? && n.RECIPIENTS?) || (m.ACTION_TYPES? && n.ACTION_TYPES?)
    case (RightTerm(q), RightTerm(r)) => (q.DELEGATE? && r.DELEGATE?) || q == r
    case (BoundTerm(id, side, _), BoundTerm(other, otherSide, _)) => id == other && side == otherSide
    case (WindowTerm(domain, _, _), WindowTerm(other, _, _)) => domain == other
    case (DimensionTerm(d), DimensionTerm(e)) => d.dimensionId == e.dimensionId
    case (InvariantTerm(id, v, scope, _), InvariantTerm(other, w, otherScope, _)) => id == other && v == w && scope == otherScope
    case (PolicyTerm(domain, kind, _, _), PolicyTerm(other, otherKind, _, _)) => domain == other && kind == otherKind
    case (_, _) => false
  }

  lemma KeyIs(s: Term, t: Term)
    ensures KeyOf(s) == KeyOf(t) <==> SameKey(s, t)
  {
  }

  ghost predicate WellTerms(terms: seq<Term>) {
    WellSet(terms, 128, WellTerm, LayTerm) && KeysDiffer(terms)
  }

  lemma TermsRule(terms: seq<Term>)
    ensures TermSet(MAX_GRANT_TERMS).valid(terms) <==> WellTerms(terms)
  {
    hide TermCodec, WellTerm, LayTerm, WellSet, SetOf, SameKey, KeyOf;
    forall t: Term ensures TermCodec().valid(t) <==> WellTerm(t) {
      TermRule(t);
    }
    forall t: Term | WellTerm(t) ensures TermCodec().write(t) == LayTerm(t) {
      TermIs(t);
    }
    SetRule(TermCodec(), MAX_GRANT_TERMS, DistinctKeys, terms, WellTerm, LayTerm);
    assert DistinctKeys(terms) <==> KeysDiffer(terms) by {
      forall i, j | 0 <= i < j < |terms| ensures KeyOf(terms[i]) == KeyOf(terms[j]) <==> SameKey(terms[i], terms[j]) {
        KeyIs(terms[i], terms[j]);
      }
    }
  }

  // A root issued by its principal, or a child naming a 32-byte parent; a window that is not empty; canonical terms.
  ghost predicate WellGrant(g: Grant<Bytes>) {
    && WellParty(g.lineage.issuer) && WellParty(g.principal) && WellParty(g.holder)
    && (if g.lineage.ROOT? then g.lineage.issuer == g.principal else |g.lineage.parent| == 32)
    && INT64_MIN <= g.notBefore < g.expiresAt <= INT64_MAX && WellTerms(g.terms) && 0 <= g.nonce <= UINT64_MAX
  }

  lemma LineageRule(l: Lineage<Bytes>)
    ensures LineageCodec().valid(l) <==> WellParty(l.issuer) && (l.DELEGATION? ==> |l.parent| == 32)
  {
    hide PartyCodec, WellParty, Mapped;
    ChoiceRule(LineageCode, LineageBranch, l);
    hide Choice;
    PartyRule(l.issuer);
    match l
    case ROOT(issuer) => MappedIs(PartyCodec(), RootOf, IssuerIn, IsRoot, l);
    case DELEGATION(parent, issuer) =>
      MappedIs(Pair(DigestCodec(false), PartyCodec()), DelegationOf, DelegationIn, IsDelegation, l);
      PairIs(DigestCodec(false), PartyCodec(), parent, issuer);
  }

  // The codec takes exactly the well-formed grants.
  lemma GrantRule(g: Grant<Bytes>)
    ensures ValidGrant(g) <==> WellGrant(g)
  {
    var end := (g.notBefore, (g.expiresAt, (g.terms, g.nonce)));
    hide LineageCodec, PartyCodec, TermSet, SInt, UInt, WellParty, WellTerms;
    MappedIs(GrantShape(), GrantOf, PartsOfGrant, CoherentGrant, g);
    PairIs(LineageCodec(), Pair(PartyCodec(), Pair(PartyCodec(), GrantTail())), g.lineage, (g.principal, (g.holder, end)));
    PairIs(PartyCodec(), Pair(PartyCodec(), GrantTail()), g.principal, (g.holder, end));
    PairIs(PartyCodec(), GrantTail(), g.holder, end);
    FourPairs(SInt(8), SInt(8), TermSet(MAX_GRANT_TERMS), UInt(8), g.notBefore, g.expiresAt, g.terms, g.nonce);
    hide Pair, Mapped;
    LineageRule(g.lineage);
    PartyRule(g.principal);
    PartyRule(g.holder);
    TermsRule(g.terms);
    UIntRange(g.notBefore);
    UIntRange(g.expiresAt);
    UIntRange(g.nonce);
  }

  // Whatever bytes are accepted as a grant, what they decode to is well formed, and is what its own layout decodes to.
  lemma AcceptedGrant(bytes: Bytes)
    requires DecodeGrant(bytes).Some?
    ensures WellGrant(DecodeGrant(bytes).value.value)
    ensures DecodeGrant(bytes).value.marks == 0 ==> bytes == LayGrant(DecodeGrant(bytes).value.value)
  {
    hide GrantCodec, LayGrant, WellGrant, DecodeTagged, Encode, ValidGrant;
    GrantReencodes(bytes);
    var g := DecodeGrant(bytes).value.value;
    GrantRule(g);
    GrantIs(g);
  }

  // A principal policy names no right, no bound, no set, no window.
  ghost predicate WellPolicy(p: Policy) {
    && WellParty(p.principal) && 0 <= p.sequence <= UINT64_MAX && WellTerms(p.terms) && 0 <= p.nonce <= UINT64_MAX
    && forall i :: 0 <= i < |p.terms| ==> !p.terms[i].SetTerm? && !p.terms[i].RightTerm? && !p.terms[i].BoundTerm? && !p.terms[i].WindowTerm?
  }

  lemma PolicyRule(p: Policy)
    ensures PolicyObjectCodec().valid(p) <==> WellPolicy(p)
  {
    hide PartyCodec, TermSet, UInt, WellParty, WellTerms;
    MappedIs(PolicyObjectShape(), PolicyOf, PartsOfPolicy, ConstrainsOnly, p);
    FourPairs(PartyCodec(), UInt(8), TermSet(MAX_GRANT_TERMS), UInt(8), p.principal, p.sequence, p.terms, p.nonce);
    hide Pair, Mapped;
    PartyRule(p.principal);
    TermsRule(p.terms);
    UIntRange(p.sequence);
    UIntRange(p.nonce);
  }
}
