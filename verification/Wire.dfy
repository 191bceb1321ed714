// The field order and wire codes of references, quantities, requirements and the seven term kinds
// (packages/core/src/identifiers.ts, module.ts, quantity.ts, state.ts, terms.ts).
module Wire {
  import opened Common
  import opened Core
  import opened Canonical
  import opened Codec
  import opened CodecSets

  predicate Always<T>(x: T) {
    true
  }

  function Ident(): Codec<string> {
    TextCodec(ValidIdentifier)
  }

  lemma IdentGood()
    ensures Good(Ident())
  {
    TextGood(ValidIdentifier);
  }

  function Natural(x: int): nat {
    if x < 0 then 0 else x
  }

  // ---- References ------------------------------------------------------------------------------

  predicate IsHexDigit(c: char) {
    '0' <= c <= '9' || 'a' <= c <= 'f'
  }

  predicate ValidAddress(s: string) {
    |s| == 42 && s[0] == '0' && s[1] == 'x' && forall i :: 2 <= i < 42 ==> IsHexDigit(s[i])
  }

  predicate ValidParty(p: Party) {
    ValidIdentifier(p.kind) && ValidIdentifier(p.value) && (p.kind == "eip155-address" ==> ValidAddress(p.value))
  }

  function PartyOf(p: (string, string)): Party {
    Party(p.0, p.1)
  }

  function PartyParts(p: Party): (string, string) {
    (p.kind, p.value)
  }

  function PartyCodec(): Codec<Party> {
    Mapped(Pair(Ident(), Ident()), PartyOf, PartyParts, ValidParty)
  }

  lemma PartyGood()
    ensures Good(PartyCodec())
  {
    IdentGood();
    PairGood(Ident(), Ident());
    MappedGood(Pair(Ident(), Ident()), PartyOf, PartyParts, ValidParty);
  }

  const RESOURCE_KINDS: seq<ResourceKind> :=
    [MARKET, CANONICAL_ASSET, REPRESENTATION_ASSET, ACCOUNT, VENUE, RECIPIENT, PROPOSAL]

  function ResourceOf(p: (string, (ResourceKind, string))): Resource {
    Resource(p.0, p.1.0, p.1.1)
  }

  function ResourceParts(r: Resource): (string, (ResourceKind, string)) {
    (r.domain, (r.kind, r.localId))
  }

  // A resource restricted to the kinds its position allows.
  function ResourceCodec(rule: Resource -> bool): Codec<Resource> {
    Mapped(Pair(Ident(), Pair(Enumerated(RESOURCE_KINDS), Ident())), ResourceOf, ResourceParts, rule)
  }

  lemma ResourceGood(rule: Resource -> bool)
    ensures Good(ResourceCodec(rule))
  {
    IdentGood();
    EnumeratedGood(RESOURCE_KINDS);
    PairGood(Enumerated(RESOURCE_KINDS), Ident());
    PairGood(Ident(), Pair(Enumerated(RESOURCE_KINDS), Ident()));
    MappedGood(Pair(Ident(), Pair(Enumerated(RESOURCE_KINDS), Ident())), ResourceOf, ResourceParts, rule);
  }

  predicate IsMarket(r: Resource) {
    r.kind.MARKET?
  }

  predicate IsAsset(r: Resource) {
    AssetKind(r.kind)
  }

  predicate IsVenue(r: Resource) {
    r.kind.VENUE?
  }

  predicate IsRecipient(r: Resource) {
    r.kind.RECIPIENT? || r.kind.ACCOUNT?
  }

  predicate IsAccount(r: Resource) {
    r.kind.ACCOUNT?
  }

  function ModuleOf(p: (string, (string, (int, Bytes)))): ModuleRef {
    ModuleRef(p.0, p.1.0, p.1.1.0, p.1.1.1)
  }

  function ModuleParts(m: ModuleRef): (string, (string, (int, Bytes))) {
    (m.domainId, (m.moduleId, (m.version, m.digest)))
  }

  function ModuleShape(): Codec<(string, (string, (int, Bytes)))> {
    Pair(Ident(), Pair(Ident(), Pair(UInt(4), DigestCodec(true))))
  }

  function ModuleCodec(): Codec<ModuleRef> {
    Mapped(ModuleShape(), ModuleOf, ModuleParts, Always)
  }

  lemma ModuleGood()
    ensures Good(ModuleCodec())
  {
    IdentGood();
    UIntGood(4);
    DigestGood(true);
    PairGood(UInt(4), DigestCodec(true));
    PairGood(Ident(), Pair(UInt(4), DigestCodec(true)));
    PairGood(Ident(), Pair(Ident(), Pair(UInt(4), DigestCodec(true))));
    MappedGood(ModuleShape(), ModuleOf, ModuleParts, Always);
  }

  function AdapterOf(p: (string, (int, Bytes))): AdapterRef {
    AdapterRef(p.0, p.1.0, p.1.1)
  }

  function AdapterParts(a: AdapterRef): (string, (int, Bytes)) {
    (a.adapterId, (a.version, a.digest))
  }

  function AdapterCodec(): Codec<AdapterRef> {
    Mapped(Pair(Ident(), Pair(UInt(4), DigestCodec(true))), AdapterOf, AdapterParts, Always)
  }

  lemma AdapterGood()
    ensures Good(AdapterCodec())
  {
    IdentGood();
    UIntGood(4);
    DigestGood(true);
    PairGood(UInt(4), DigestCodec(true));
    PairGood(Ident(), Pair(UInt(4), DigestCodec(true)));
    MappedGood(Pair(Ident(), Pair(UInt(4), DigestCodec(true))), AdapterOf, AdapterParts, Always);
  }

  function ActionTypeOf(p: (string, string)): ActionTypeRef {
    ActionTypeRef(p.0, p.1)
  }

  function ActionTypeParts(a: ActionTypeRef): (string, string) {
    (a.domain, a.actionType)
  }

  function ActionTypeCodec(): Codec<ActionTypeRef> {
    Mapped(Pair(Ident(), Ident()), ActionTypeOf, ActionTypeParts, Always)
  }

  lemma ActionTypeGood()
    ensures Good(ActionTypeCodec())
  {
    IdentGood();
    PairGood(Ident(), Ident());
    MappedGood(Pair(Ident(), Ident()), ActionTypeOf, ActionTypeParts, Always);
  }

  // ---- Set constraints -------------------------------------------------------------------------

  function VocabularyCode(m: Members): int {
    match m
    case MODULES(_) => 1
    case ADAPTERS(_) => 2
    case MARKETS(_) => 3
    case ASSETS(_) => 4
    case VENUES(_) => 5
    case RECIPIENTS(_) => 6
    case ACTION_TYPES(_) => 7
  }

  function ModulesOf(xs: seq<ModuleRef>): Members { MODULES(xs) }

  function ModulesIn(m: Members): seq<ModuleRef> { if m.MODULES? then m.modules else [] }

  function AdaptersOf(xs: seq<AdapterRef>): Members { ADAPTERS(xs) }

  function AdaptersIn(m: Members): seq<AdapterRef> { if m.ADAPTERS? then m.adapters else [] }

  function ActionTypesOf(xs: seq<ActionTypeRef>): Members { ACTION_TYPES(xs) }

  function ActionTypesIn(m: Members): seq<ActionTypeRef> { if m.ACTION_TYPES? then m.actionTypes else [] }

  function MarketsOf(xs: seq<Resource>): Members { MARKETS(xs) }

  function AssetsOf(xs: seq<Resource>): Members { ASSETS(xs) }

  function VenuesOf(xs: seq<Resource>): Members { VENUES(xs) }

  function RecipientsOf(xs: seq<Resource>): Members { RECIPIENTS(xs) }

  function ResourcesIn(m: Members): seq<Resource> {
    match m
    case MARKETS(xs) => xs
    case ASSETS(xs) => xs
    case VENUES(xs) => xs
    case RECIPIENTS(xs) => xs
    case _ => []
  }

  predicate IsModules(m: Members) { m.MODULES? }

  predicate IsAdapters(m: Members) { m.ADAPTERS? }

  predicate IsMarkets(m: Members) { m.MARKETS? }

  predicate IsAssets(m: Members) { m.ASSETS? }

  predicate IsVenues(m: Members) { m.VENUES? }

  predicate IsRecipients(m: Members) { m.RECIPIENTS? }

  predicate IsActionTypes(m: Members) { m.ACTION_TYPES? }

  function MemberSet<T(!new)>(c: Codec<T>): Codec<seq<T>> {
    SetOf(c, MAX_SET_MEMBERS, Always)
  }

  function MembersBranch(code: int): Codec<Members> {
    if code == 1 then Mapped(MemberSet(ModuleCodec()), ModulesOf, ModulesIn, IsModules)
    else if code == 2 then Mapped(MemberSet(AdapterCodec()), AdaptersOf, AdaptersIn, IsAdapters)
    else if code == 3 then Mapped(MemberSet(ResourceCodec(IsMarket)), MarketsOf, ResourcesIn, IsMarkets)
    else if code == 4 then Mapped(MemberSet(ResourceCodec(IsAsset)), AssetsOf, ResourcesIn, IsAssets)
    else if code == 5 then Mapped(MemberSet(ResourceCodec(IsVenue)), VenuesOf, ResourcesIn, IsVenues)
    else if code == 6 then Mapped(MemberSet(ResourceCodec(IsRecipient)), RecipientsOf, ResourcesIn, IsRecipients)
    else if code == 7 then Mapped(MemberSet(ActionTypeCodec()), ActionTypesOf, ActionTypesIn, IsActionTypes)
    else Never()
  }

  function MembersCodec(): Codec<Members> {
    Choice(VocabularyCode, MembersBranch)
  }

  lemma MemberSetGood<T(!new)>(c: Codec<T>)
    requires Good(c)
    ensures Good(MemberSet(c))
  {
    SetOfGood(c, MAX_SET_MEMBERS, Always);
  }

  lemma MembersGood()
    ensures Good(MembersCodec())
  {
    forall code ensures Good(MembersBranch(code)) {
      MembersBranchGood(code);
    }
    ChoiceGood(VocabularyCode, MembersBranch);
  }

  lemma MembersBranchGood(code: int)
    ensures Good(MembersBranch(code))
  {
    hide Good, ModuleCodec, AdapterCodec, ResourceCodec, ActionTypeCodec, MemberSet, Mapped;
    if code == 1 {
      ModuleGood();
      MemberSetGood(ModuleCodec());
      MappedGood(MemberSet(ModuleCodec()), ModulesOf, ModulesIn, IsModules);
    } else if code == 2 {
      AdapterGood();
      MemberSetGood(AdapterCodec());
      MappedGood(MemberSet(AdapterCodec()), AdaptersOf, AdaptersIn, IsAdapters);
    } else if code == 3 {
      ResourceGood(IsMarket);
      MemberSetGood(ResourceCodec(IsMarket));
      MappedGood(MemberSet(ResourceCodec(IsMarket)), MarketsOf, ResourcesIn, IsMarkets);
    } else if code == 4 {
      ResourceGood(IsAsset);
      MemberSetGood(ResourceCodec(IsAsset));
      MappedGood(MemberSet(ResourceCodec(IsAsset)), AssetsOf, ResourcesIn, IsAssets);
    } else if code == 5 {
      ResourceGood(IsVenue);
      MemberSetGood(ResourceCodec(IsVenue));
      MappedGood(MemberSet(ResourceCodec(IsVenue)), VenuesOf, ResourcesIn, IsVenues);
    } else if code == 6 {
      ResourceGood(IsRecipient);
      MemberSetGood(ResourceCodec(IsRecipient));
      MappedGood(MemberSet(ResourceCodec(IsRecipient)), RecipientsOf, ResourcesIn, IsRecipients);
    } else if code == 7 {
      ActionTypeGood();
      MemberSetGood(ActionTypeCodec());
      MappedGood(MemberSet(ActionTypeCodec()), ActionTypesOf, ActionTypesIn, IsActionTypes);
    } else {
      NeverGood<Members>();
    }
  }

  // ---- Rights ----------------------------------------------------------------------------------

  function RightWireCode(r: Right): int {
    RightCode(r)
  }

  function DelegateOf(depth: int): Right { DELEGATE(Natural(depth)) }

  function DepthOf(r: Right): int { if r.DELEGATE? then r.maxDepth else 0 }

  predicate ValidDelegate(r: Right) { r.DELEGATE? && 1 <= r.maxDepth <= MAX_DELEGATION_DEPTH }

  function RightBranch(code: int): Codec<Right> {
    if code == 1 then Constant(OPEN_RISK)
    else if code == 2 then Constant(REDUCE_RISK)
    else if code == 3 then Constant(TRANSFER_OUT)
    else if code == 4 then Mapped(UInt(1), DelegateOf, DepthOf, ValidDelegate)
    else Never()
  }

  function RightCodec(): Codec<Right> {
    Choice(RightWireCode, RightBranch)
  }

  lemma RightGood()
    ensures Good(RightCodec())
  {
    forall code ensures Good(RightBranch(code)) {
      ConstantGood(OPEN_RISK);
      ConstantGood(REDUCE_RISK);
      ConstantGood(TRANSFER_OUT);
      UIntGood(1);
      MappedGood(UInt(1), DelegateOf, DepthOf, ValidDelegate);
      NeverGood<Right>();
    }
    ChoiceGood(RightWireCode, RightBranch);
  }

  // ---- Quantities and bounds -------------------------------------------------------------------

  const QUANTITY_KINDS: seq<QuantityKind> :=
    [TOKEN_AMOUNT, CAPITAL, POSITION_SIZE, NOTIONAL, GROSS_EXPOSURE, NET_EXPOSURE, MARGIN, COLLATERAL, DEBT, PNL, COUNT]

  function QuantityBoundOf(p: (QuantityKind, (string, (int, int)))): QuantityBound {
    QuantityBound(p.0, p.1.0, Natural(p.1.1.0), p.1.1.1)
  }

  function QuantityBoundParts(b: QuantityBound): (QuantityKind, (string, (int, int))) {
    (b.kind, (b.unit, (b.decimals, b.atoms)))
  }

  function QuantityBoundShape(): Codec<(QuantityKind, (string, (int, int)))> {
    Pair(Enumerated(QUANTITY_KINDS), Pair(TextCodec(ValidUnit), Pair(UInt(1), UInt(32))))
  }

  function QuantityBoundCodec(): Codec<QuantityBound> {
    Mapped(QuantityBoundShape(), QuantityBoundOf, QuantityBoundParts, ValidQuantityBound)
  }

  lemma QuantityBoundGood()
    ensures Good(QuantityBoundCodec())
  {
    EnumeratedGood(QUANTITY_KINDS);
    TextGood(ValidUnit);
    UIntGood(1);
    UIntGood(32);
    PairGood(UInt(1), UInt(32));
    PairGood(TextCodec(ValidUnit), Pair(UInt(1), UInt(32)));
    PairGood(Enumerated(QUANTITY_KINDS), Pair(TextCodec(ValidUnit), Pair(UInt(1), UInt(32))));
    hide Good, Base;
    MappedGood(QuantityBoundShape(), QuantityBoundOf, QuantityBoundParts, ValidQuantityBound);
  }

  function RatioOf(p: (int, int)): Ratio { Ratio(p.0, Natural(p.1)) }

  function RatioParts(r: Ratio): (int, int) { (r.numerator, r.scale) }

  predicate ValidRatio(r: Ratio) { r.scale <= MAX_DECIMALS }

  function RatioCodec(): Codec<Ratio> {
    Mapped(Pair(UInt(32), UInt(1)), RatioOf, RatioParts, ValidRatio)
  }

  lemma RatioGood()
    ensures Good(RatioCodec())
  {
    UIntGood(1);
    UIntGood(32);
    PairGood(UInt(32), UInt(1));
    hide Good, Base;
    MappedGood(Pair(UInt(32), UInt(1)), RatioOf, RatioParts, ValidRatio);
  }

  function BoundValueCode(v: BoundValue): int { if v.QUANTITY? then 1 else 2 }

  function QuantityValueOf(q: QuantityBound): BoundValue { QUANTITY(q) }

  function QuantityIn(v: BoundValue): QuantityBound { if v.QUANTITY? then v.quantity else QuantityBound(COUNT, "", 0, 0) }

  predicate IsQuantity(v: BoundValue) { v.QUANTITY? }

  function RatioValueOf(r: Ratio): BoundValue { RATIO(r) }

  function RatioIn(v: BoundValue): Ratio { if v.RATIO? then v.ratio else Ratio(0, 0) }

  predicate IsRatio(v: BoundValue) { v.RATIO? }

  function BoundValueBranch(code: int): Codec<BoundValue> {
    if code == 1 then Mapped(QuantityBoundCodec(), QuantityValueOf, QuantityIn, IsQuantity)
    else if code == 2 then Mapped(RatioCodec(), RatioValueOf, RatioIn, IsRatio)
    else Never()
  }

  function BoundValueCodec(): Codec<BoundValue> {
    Choice(BoundValueCode, BoundValueBranch)
  }

  lemma BoundValueGood()
    ensures Good(BoundValueCodec())
  {
    hide Good, QuantityBoundCodec, RatioCodec, Mapped;
    forall code ensures Good(BoundValueBranch(code)) {
      QuantityBoundGood();
      RatioGood();
      MappedGood(QuantityBoundCodec(), QuantityValueOf, QuantityIn, IsQuantity);
      MappedGood(RatioCodec(), RatioValueOf, RatioIn, IsRatio);
      NeverGood<BoundValue>();
    }
    ChoiceGood(BoundValueCode, BoundValueBranch);
  }

  // ---- State requirements ----------------------------------------------------------------------

  function FreshnessCode(f: Freshness): int {
    match f
    case AGE(_) => 1
    case BLOCKS(_) => 2
    case SEQUENCE => 3
    case VERSION(_, _) => 4
  }

  function AgeOf(seconds: int): Freshness { AGE(seconds) }

  function AgeIn(f: Freshness): int { if f.AGE? then f.maxAgeSeconds else 0 }

  predicate IsAge(f: Freshness) { f.AGE? }

  function BlocksOf(n: int): Freshness { BLOCKS(n) }

  function BlocksIn(f: Freshness): int { if f.BLOCKS? then f.maxBlocksBehind else 0 }

  predicate IsBlocks(f: Freshness) { f.BLOCKS? }

  function VersionOf(p: (Bytes, int)): Freshness { VERSION(p.0, p.1) }

  function VersionIn(f: Freshness): (Bytes, int) { if f.VERSION? then (f.pinned, f.maxAge) else ([], 0) }

  predicate IsVersion(f: Freshness) { f.VERSION? }

  function FreshnessBranch(code: int): Codec<Freshness> {
    if code == 1 then Mapped(UInt(4), AgeOf, AgeIn, IsAge)
    else if code == 2 then Mapped(UInt(8), BlocksOf, BlocksIn, IsBlocks)
    else if code == 3 then Constant(SEQUENCE)
    else if code == 4 then Mapped(Pair(DigestCodec(false), UInt(4)), VersionOf, VersionIn, IsVersion)
    else Never()
  }

  function FreshnessCodec(): Codec<Freshness> {
    Choice(FreshnessCode, FreshnessBranch)
  }

  lemma FreshnessGood()
    ensures Good(FreshnessCodec())
  {
    forall code ensures Good(FreshnessBranch(code)) {
      FreshnessBranchGood(code);
    }
    hide Good;
    ChoiceGood(FreshnessCode, FreshnessBranch);
  }

  lemma FreshnessBranchGood(code: int)
    ensures Good(FreshnessBranch(code))
  {
    hide Good, UInt, DigestCodec, Pair;
    if code == 1 {
      UIntGood(4);
      MappedGood(UInt(4), AgeOf, AgeIn, IsAge);
    } else if code == 2 {
      UIntGood(8);
      MappedGood(UInt(8), BlocksOf, BlocksIn, IsBlocks);
    } else if code == 3 {
      ConstantGood(SEQUENCE);
    } else if code == 4 {
      DigestGood(false);
      UIntGood(4);
      PairGood(DigestCodec(false), UInt(4));
      MappedGood(Pair(DigestCodec(false), UInt(4)), VersionOf, VersionIn, IsVersion);
    } else {
      NeverGood<Freshness>();
    }
  }

  const TRUST_CLASSES: seq<TrustClass> := [AUTHORITATIVE, VERIFIED, ADVISORY, UNTRUSTED]
  const AT_ISSUE_VALUES: seq<AtIssue> := [WITHIN_POLICY, RECHECK]

  function DependenceCode(d: Dependence): int {
    match d
    case NOT_REQUIRED => 1
    case ENFORCED_BY_ARTIFACT(_) => 2
    case BOUNDED_BY_FRESHNESS => 3
  }

  function EnforcedOf(field: string): Dependence { ENFORCED_BY_ARTIFACT(field) }

  function EnforcedIn(d: Dependence): string { if d.ENFORCED_BY_ARTIFACT? then d.artifactField else "" }

  predicate IsEnforced(d: Dependence) { d.ENFORCED_BY_ARTIFACT? }

  function DependenceBranch(code: int): Codec<Dependence> {
    if code == 1 then Constant(NOT_REQUIRED)
    else if code == 2 then Mapped(Ident(), EnforcedOf, EnforcedIn, IsEnforced)
    else if code == 3 then Constant(BOUNDED_BY_FRESHNESS)
    else Never()
  }

  function DependenceCodec(): Codec<Dependence> {
    Choice(DependenceCode, DependenceBranch)
  }

  lemma DependenceGood()
    ensures Good(DependenceCodec())
  {
    forall code ensures Good(DependenceBranch(code)) {
      IdentGood();
      MappedGood(Ident(), EnforcedOf, EnforcedIn, IsEnforced);
      ConstantGood(NOT_REQUIRED);
      ConstantGood(BOUNDED_BY_FRESHNESS);
      NeverGood<Dependence>();
    }
    hide Good;
    ChoiceGood(DependenceCode, DependenceBranch);
  }

  type RequirementParts = (Freshness, (TrustClass, (string, (string, (AtIssue, Dependence)))))

  function RequirementOf(p: RequirementParts): Requirement {
    Requirement(p.0, p.1.0, FinalityRef(p.1.1.0, p.1.1.1.0), p.1.1.1.1.0, p.1.1.1.1.1)
  }

  function PartsOfRequirement(r: Requirement): RequirementParts {
    (r.freshness, (r.minTrust, (r.minFinality.ladder, (r.minFinality.level, (r.atIssue, r.atExecution)))))
  }

  // Two trust classes are never an admissible minimum, and only time-based freshness can bound an execution.
  predicate CoherentRequirement(r: Requirement) {
    && (r.minTrust.AUTHORITATIVE? || r.minTrust.VERIFIED?)
    && (r.atExecution.BOUNDED_BY_FRESHNESS? ==> r.freshness.AGE? || r.freshness.VERSION?)
  }

  function RequirementTail(): Codec<(string, (string, (AtIssue, Dependence)))> {
    Pair(Ident(), Pair(Ident(), Pair(Enumerated(AT_ISSUE_VALUES), DependenceCodec())))
  }

  lemma RequirementTailGood()
    ensures Good(RequirementTail())
  {
    IdentGood();
    EnumeratedGood(AT_ISSUE_VALUES);
    DependenceGood();
    hide Good;
    PairGood(Enumerated(AT_ISSUE_VALUES), DependenceCodec());
    PairGood(Ident(), Pair(Enumerated(AT_ISSUE_VALUES), DependenceCodec()));
    PairGood(Ident(), Pair(Ident(), Pair(Enumerated(AT_ISSUE_VALUES), DependenceCodec())));
  }

  function RequirementShape(): Codec<RequirementParts> {
    Pair(FreshnessCodec(), Pair(Enumerated(TRUST_CLASSES), RequirementTail()))
  }

  function RequirementCodec(): Codec<Requirement> {
    Mapped(RequirementShape(), RequirementOf, PartsOfRequirement, CoherentRequirement)
  }

  lemma RequirementGood()
    ensures Good(RequirementCodec())
  {
    EnumeratedGood(TRUST_CLASSES);
    hide Good;
    FreshnessGood();
    RequirementTailGood();
    PairGood(Enumerated(TRUST_CLASSES), RequirementTail());
    PairGood(FreshnessCodec(), Pair(Enumerated(TRUST_CLASSES), RequirementTail()));
    MappedGood(RequirementShape(), RequirementOf, PartsOfRequirement, CoherentRequirement);
  }

  // ---- Ledger dimensions -----------------------------------------------------------------------

  function EpochOf(p: (int, int)): Epoch { Epoch(p.0, p.1) }

  function EpochParts(e: Epoch): (int, int) { (e.anchor, e.lengthSeconds) }

  function EpochCodec(): Codec<Epoch> {
    Mapped(Pair(SInt(8), UInt(4)), EpochOf, EpochParts, Always)
  }

  lemma EpochGood()
    ensures Good(EpochCodec())
  {
    SIntGood(8);
    UIntGood(4);
    hide Good;
    PairGood(SInt(8), UInt(4));
    MappedGood(Pair(SInt(8), UInt(4)), EpochOf, EpochParts, Always);
  }

  type ScopeParts = (Option<Resource>, (Option<Resource>, (Option<string>, Option<Resource>)))

  function ScopeOf(p: ScopeParts): Scope { Scope(p.0, p.1.0, p.1.1.0, p.1.1.1) }

  function PartsOfScope(s: Scope): ScopeParts { (s.asset, (s.market, (s.domain, s.account))) }

  function ScopeShape(): Codec<ScopeParts> {
    Pair(Nullable(ResourceCodec(IsAsset)),
      Pair(Nullable(ResourceCodec(IsMarket)), Pair(Nullable(Ident()), Nullable(ResourceCodec(IsAccount)))))
  }

  function ScopeCodec(): Codec<Scope> {
    Mapped(ScopeShape(), ScopeOf, PartsOfScope, Always)
  }

  lemma ScopeGood()
    ensures Good(ScopeCodec())
  {
    hide Good;
    ResourceGood(IsAsset);
    ResourceGood(IsMarket);
    ResourceGood(IsAccount);
    IdentGood();
    var asset, market, account := ResourceCodec(IsAsset), ResourceCodec(IsMarket), ResourceCodec(IsAccount);
    NullableGood(asset);
    NullableGood(market);
    NullableGood(account);
    NullableGood(Ident());
    PairGood(Nullable(Ident()), Nullable(account));
    PairGood(Nullable(market), Pair(Nullable(Ident()), Nullable(account)));
    PairGood(Nullable(asset), Pair(Nullable(market), Pair(Nullable(Ident()), Nullable(account))));
    MappedGood(ScopeShape(), ScopeOf, PartsOfScope, Always);
  }

  const ACCOUNTING_VALUES: seq<Accounting> := [BUDGET, CAPACITY]
  const RESTORATION_VALUES: seq<Restoration> := [NONE, EPOCH, AS_CHARGED, UNITS]
  const SIGN_MODES: seq<SignMode> := [UNSIGNED, NET]

  type DimensionParts =
    (string, (QuantityBound, (Accounting, (Restoration, (Option<Epoch>, (SignMode, Scope))))))

  function DimensionOf(p: DimensionParts): Dimension {
    Dimension(p.0, p.1.0, p.1.1.0, p.1.1.1.0, p.1.1.1.1.0, p.1.1.1.1.1.0, p.1.1.1.1.1.1)
  }

  function PartsOfDimension(d: Dimension): DimensionParts {
    (d.dimensionId, (d.limit, (d.accounting, (d.restoration, (d.epoch, (d.sign, d.scope))))))
  }

  function DimensionTail(): Codec<(Accounting, (Restoration, (Option<Epoch>, (SignMode, Scope))))> {
    Pair(Enumerated(ACCOUNTING_VALUES), Pair(Enumerated(RESTORATION_VALUES),
      Pair(Nullable(EpochCodec()), Pair(Enumerated(SIGN_MODES), ScopeCodec()))))
  }

  lemma DimensionTailGood()
    ensures Good(DimensionTail())
  {
    EnumeratedGood(ACCOUNTING_VALUES);
    EnumeratedGood(RESTORATION_VALUES);
    EnumeratedGood(SIGN_MODES);
    hide Good;
    EpochGood();
    NullableGood(EpochCodec());
    ScopeGood();
    var end := Pair(Enumerated(SIGN_MODES), ScopeCodec());
    PairGood(Enumerated(SIGN_MODES), ScopeCodec());
    PairGood(Nullable(EpochCodec()), end);
    PairGood(Enumerated(RESTORATION_VALUES), Pair(Nullable(EpochCodec()), end));
    PairGood(Enumerated(ACCOUNTING_VALUES), Pair(Enumerated(RESTORATION_VALUES), Pair(Nullable(EpochCodec()), end)));
  }

  function DimensionShape(): Codec<DimensionParts> {
    Pair(Ident(), Pair(QuantityBoundCodec(), DimensionTail()))
  }

  function DimensionCodec(): Codec<Dimension> {
    Mapped(DimensionShape(), DimensionOf, PartsOfDimension, ValidDimension)
  }

  lemma DimensionGood()
    ensures Good(DimensionCodec())
  {
    hide Good, ValidDimension;
    IdentGood();
    QuantityBoundGood();
    DimensionTailGood();
    PairGood(QuantityBoundCodec(), DimensionTail());
    PairGood(Ident(), Pair(QuantityBoundCodec(), DimensionTail()));
    MappedGood(DimensionShape(), DimensionOf, PartsOfDimension, ValidDimension);
  }

  // ---- The seven kinds of term -----------------------------------------------------------------

  function TermCode(t: Term): int {
    match t
    case SetTerm(_) => 1
    case RightTerm(_) => 2
    case BoundTerm(_, _, _) => 3
    case WindowTerm(_, _, _) => 4
    case DimensionTerm(_) => 5
    case InvariantTerm(_, _, _, _) => 6
    case PolicyTerm(_, _, _, _) => 7
  }

  function SetTermOf(m: Members): Term { SetTerm(m) }

  function MembersIn(t: Term): Members { if t.SetTerm? then t.members else MODULES([]) }

  predicate IsSetTerm(t: Term) { t.SetTerm? }

  function RightTermOf(r: Right): Term { RightTerm(r) }

  function RightIn(t: Term): Right { if t.RightTerm? then t.right else OPEN_RISK }

  predicate IsRightTerm(t: Term) { t.RightTerm? }

  const POLARITIES: seq<Polarity> := [MAX, MIN]

  type BoundParts = (string, (Polarity, BoundValue))

  function BoundTermOf(p: BoundParts): Term { BoundTerm(p.0, p.1.0, p.1.1) }

  function BoundIn(t: Term): BoundParts {
    if t.BoundTerm? then (t.boundId, (t.polarity, t.value)) else ("", (MAX, RATIO(Ratio(0, 0))))
  }

  predicate IsBoundTerm(t: Term) { t.BoundTerm? }

  function BoundShape(): Codec<BoundParts> {
    Pair(Ident(), Pair(Enumerated(POLARITIES), BoundValueCodec()))
  }

  type WindowParts = (string, (int, int))

  function WindowTermOf(p: WindowParts): Term { WindowTerm(p.0, p.1.0, p.1.1) }

  function WindowIn(t: Term): WindowParts {
    if t.WindowTerm? then (t.domain, (t.notBefore, t.expiresAt)) else ("", (0, 0))
  }

  predicate ValidWindow(t: Term) { t.WindowTerm? && t.notBefore < t.expiresAt }

  function WindowShape(): Codec<WindowParts> {
    Pair(Ident(), Pair(SInt(8), SInt(8)))
  }

  function DimensionTermOf(d: Dimension): Term { DimensionTerm(d) }

  function DimensionIn(t: Term): Dimension {
    if t.DimensionTerm? then t.dimension
    else Dimension("", QuantityBound(COUNT, "", 0, 0), BUDGET, NONE, None, UNSIGNED, Scope(None, None, None, None))
  }

  predicate IsDimensionTerm(t: Term) { t.DimensionTerm? }

  type InvariantParts = (string, (int, (seq<Resource>, Bytes)))

  function InvariantTermOf(p: InvariantParts): Term { InvariantTerm(p.0, p.1.0, p.1.1.0, p.1.1.1) }

  function InvariantIn(t: Term): InvariantParts {
    if t.InvariantTerm? then (t.invariantId, (t.version, (t.scope, t.params))) else ("", (0, ([], [])))
  }

  predicate IsInvariantTerm(t: Term) { t.InvariantTerm? }

  function InvariantScope(): Codec<seq<Resource>> {
    SetOf(ResourceCodec(Always), MAX_INVARIANT_SCOPE, Always)
  }

  function InvariantShape(): Codec<InvariantParts> {
    Pair(Ident(), Pair(UInt(4), Pair(InvariantScope(), OpaqueCodec(MAX_INVARIANT_PARAMS_BYTES))))
  }

  type PolicyParts = (string, (string, (seq<string>, Requirement)))

  function PolicyTermOf(p: PolicyParts): Term { PolicyTerm(p.0, p.1.0, p.1.1.0, p.1.1.1) }

  function PolicyIn(t: Term): PolicyParts {
    if t.PolicyTerm? then (t.policyDomain, (t.stateKind, (t.sources, t.requirement)))
    else ("", ("", ([], Requirement(SEQUENCE, VERIFIED, FinalityRef("", ""), RECHECK, NOT_REQUIRED))))
  }

  predicate IsPolicyTerm(t: Term) { t.PolicyTerm? }

  function SourceSet(): Codec<seq<string>> {
    SetOf(Ident(), MAX_ADMITTED_SOURCES, Always)
  }

  function PolicyShape(): Codec<PolicyParts> {
    Pair(Ident(), Pair(Ident(), Pair(SourceSet(), RequirementCodec())))
  }

  function TermBranch(code: int): Codec<Term> {
    if code == 1 then Mapped(MembersCodec(), SetTermOf, MembersIn, IsSetTerm)
    else if code == 2 then Mapped(RightCodec(), RightTermOf, RightIn, IsRightTerm)
    else if code == 3 then Mapped(BoundShape(), BoundTermOf, BoundIn, IsBoundTerm)
    else if code == 4 then Mapped(WindowShape(), WindowTermOf, WindowIn, ValidWindow)
    else if code == 5 then Mapped(DimensionCodec(), DimensionTermOf, DimensionIn, IsDimensionTerm)
    else if code == 6 then Mapped(InvariantShape(), InvariantTermOf, InvariantIn, IsInvariantTerm)
    else if code == 7 then Mapped(PolicyShape(), PolicyTermOf, PolicyIn, IsPolicyTerm)
    else Never()
  }

  function TermCodec(): Codec<Term> {
    Choice(TermCode, TermBranch)
  }

  lemma BoundShapeGood()
    ensures Good(BoundShape())
  {
    EnumeratedGood(POLARITIES);
    hide Good;
    IdentGood();
    BoundValueGood();
    PairGood(Enumerated(POLARITIES), BoundValueCodec());
    PairGood(Ident(), Pair(Enumerated(POLARITIES), BoundValueCodec()));
  }

  lemma WindowShapeGood()
    ensures Good(WindowShape())
  {
    hide Good;
    IdentGood();
    SIntGood(8);
    PairGood(SInt(8), SInt(8));
    PairGood(Ident(), Pair(SInt(8), SInt(8)));
  }

  lemma InvariantShapeGood()
    ensures Good(InvariantShape())
  {
    hide Good;
    IdentGood();
    UIntGood(4);
    ResourceGood(Always);
    SetOfGood(ResourceCodec(Always), MAX_INVARIANT_SCOPE, Always);
    OpaqueGood(MAX_INVARIANT_PARAMS_BYTES);
    var end := Pair(InvariantScope(), OpaqueCodec(MAX_INVARIANT_PARAMS_BYTES));
    PairGood(InvariantScope(), OpaqueCodec(MAX_INVARIANT_PARAMS_BYTES));
    PairGood(UInt(4), end);
    PairGood(Ident(), Pair(UInt(4), end));
  }

  lemma PolicyShapeGood()
    ensures Good(PolicyShape())
  {
    hide Good;
    IdentGood();
    SetOfGood(Ident(), MAX_ADMITTED_SOURCES, Always);
    RequirementGood();
    PairGood(SourceSet(), RequirementCodec());
    PairGood(Ident(), Pair(SourceSet(), RequirementCodec()));
    PairGood(Ident(), Pair(Ident(), Pair(SourceSet(), RequirementCodec())));
  }

  lemma TermBranchGood(code: int)
    ensures Good(TermBranch(code))
  {
    hide Good, MembersCodec, RightCodec, BoundShape, WindowShape, DimensionCodec, InvariantShape, PolicyShape, Mapped;
    if code == 1 {
      MembersGood();
      MappedGood(MembersCodec(), SetTermOf, MembersIn, IsSetTerm);
    } else if code == 2 {
      RightGood();
      MappedGood(RightCodec(), RightTermOf, RightIn, IsRightTerm);
    } else if code == 3 {
      BoundShapeGood();
      MappedGood(BoundShape(), BoundTermOf, BoundIn, IsBoundTerm);
    } else if code == 4 {
      WindowShapeGood();
      MappedGood(WindowShape(), WindowTermOf, WindowIn, ValidWindow);
    } else if code == 5 {
      DimensionGood();
      MappedGood(DimensionCodec(), DimensionTermOf, DimensionIn, IsDimensionTerm);
    } else if code == 6 {
      InvariantShapeGood();
      MappedGood(InvariantShape(), InvariantTermOf, InvariantIn, IsInvariantTerm);
    } else if code == 7 {
      PolicyShapeGood();
      MappedGood(PolicyShape(), PolicyTermOf, PolicyIn, IsPolicyTerm);
    } else {
      NeverGood<Term>();
    }
  }

  // Every valid term decodes from its encoding, and every accepted encoding re-encodes.
  lemma TermGood()
    ensures Good(TermCodec())
  {
    hide Good;
    forall code ensures Good(TermBranch(code)) {
      TermBranchGood(code);
    }
    ChoiceGood(TermCode, TermBranch);
  }
}
