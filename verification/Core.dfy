// The immutable vocabulary of packages/core: identities, quantities, authority terms, grants and policies.
module Core {
  import opened Common

  // ---- Text ----------------------------------------------------------------------------------

  predicate IsAlphanumeric(c: char) {
    'A' <= c <= 'Z' || 'a' <= c <= 'z' || '0' <= c <= '9'
  }

  predicate IsSeparator(c: char) {
    c == '.' || c == '_' || c == '-' || c == ':' || c == '/'
  }

  // Pure-ASCII identifiers, 1..128 characters, never starting or ending with a separator.
  predicate ValidIdentifier(s: string) {
    && 1 <= |s| <= 128
    && (forall i :: 0 <= i < |s| ==> IsAlphanumeric(s[i]) || IsSeparator(s[i]))
    && !IsSeparator(s[0])
    && !IsSeparator(s[|s| - 1])
  }

  predicate IsUnitEdge(c: char) {
    'A' <= c <= 'Z' || '0' <= c <= '9'
  }

  predicate ValidUnit(s: string) {
    && 1 <= |s| <= 32
    && (forall i :: 0 <= i < |s| ==> IsUnitEdge(s[i]) || s[i] == '.' || s[i] == '_' || s[i] == '-')
    && IsUnitEdge(s[0])
    && IsUnitEdge(s[|s| - 1])
  }

  const MAX_DECIMALS: nat := 38
  const MAX_DELEGATION_DEPTH: nat := 7
  const MAX_LINEAGE_LENGTH: nat := 8
  const MAX_GRANT_TERMS: nat := 128
  const MAX_SET_MEMBERS: nat := 256
  const MAX_INVARIANT_SCOPE: nat := 16
  const MAX_INVARIANT_PARAMS_BYTES: nat := 1024
  const MAX_ADMITTED_SOURCES: nat := 32

  // ---- References ----------------------------------------------------------------------------

  datatype Party = Party(kind: string, value: string)

  datatype ResourceKind = MARKET | CANONICAL_ASSET | REPRESENTATION_ASSET | ACCOUNT | VENUE | RECIPIENT | PROPOSAL

  datatype Resource = Resource(domain: string, kind: ResourceKind, localId: string)

  datatype ModuleRef = ModuleRef(domainId: string, moduleId: string, version: int, digest: Bytes)

  datatype AdapterRef = AdapterRef(adapterId: string, version: int, digest: Bytes)

  datatype ActionTypeRef = ActionTypeRef(domain: string, actionType: string)

  // ---- Quantities ----------------------------------------------------------------------------

  datatype QuantityKind =
    | TOKEN_AMOUNT | CAPITAL | POSITION_SIZE | NOTIONAL | GROSS_EXPOSURE | NET_EXPOSURE
    | MARGIN | COLLATERAL | DEBT | PNL | COUNT

  predicate SignedKind(k: QuantityKind) {
    k.POSITION_SIZE? || k.NET_EXPOSURE? || k.PNL?
  }

  predicate LedgerTrackable(k: QuantityKind) {
    !k.GROSS_EXPOSURE? && !k.NET_EXPOSURE?
  }

  datatype QuantityBound = QuantityBound(kind: QuantityKind, unit: string, decimals: nat, atoms: int)

  datatype Ratio = Ratio(numerator: int, scale: nat)

  // ---- State requirements --------------------------------------------------------------------

  datatype Freshness =
    | AGE(maxAgeSeconds: int)
    | BLOCKS(maxBlocksBehind: int)
    | SEQUENCE
    | VERSION(pinned: Bytes, maxAge: int)

  datatype TrustClass = AUTHORITATIVE | VERIFIED | ADVISORY | UNTRUSTED

  datatype AtIssue = WITHIN_POLICY | RECHECK

  datatype Dependence = NOT_REQUIRED | ENFORCED_BY_ARTIFACT(artifactField: string) | BOUNDED_BY_FRESHNESS

  datatype FinalityRef = FinalityRef(ladder: string, level: string)

  datatype Requirement = Requirement(
    freshness: Freshness,
    minTrust: TrustClass,
    minFinality: FinalityRef,
    atIssue: AtIssue,
    atExecution: Dependence)

  // ---- Authority terms -----------------------------------------------------------------------

  datatype Members =
    | MODULES(modules: seq<ModuleRef>)
    | ADAPTERS(adapters: seq<AdapterRef>)
    | MARKETS(markets: seq<Resource>)
    | ASSETS(assets: seq<Resource>)
    | VENUES(venues: seq<Resource>)
    | RECIPIENTS(recipients: seq<Resource>)
    | ACTION_TYPES(actionTypes: seq<ActionTypeRef>)

  datatype Right = OPEN_RISK | REDUCE_RISK | TRANSFER_OUT | DELEGATE(maxDepth: nat)

  datatype Polarity = MAX | MIN

  datatype BoundValue = QUANTITY(quantity: QuantityBound) | RATIO(ratio: Ratio)

  datatype Accounting = BUDGET | CAPACITY

  datatype Restoration = NONE | EPOCH | AS_CHARGED | UNITS

  datatype SignMode = UNSIGNED | NET

  datatype Epoch = Epoch(anchor: int, lengthSeconds: int)

  datatype Scope = Scope(
    asset: Option<Resource>, market: Option<Resource>, domain: Option<string>, account: Option<Resource>)

  datatype Dimension = Dimension(
    dimensionId: string,
    limit: QuantityBound,
    accounting: Accounting,
    restoration: Restoration,
    epoch: Option<Epoch>,
    sign: SignMode,
    scope: Scope)

  datatype Term =
    | SetTerm(members: Members)
    | RightTerm(right: Right)
    | BoundTerm(boundId: string, polarity: Polarity, value: BoundValue)
    | WindowTerm(domain: string, notBefore: int, expiresAt: int)
    | DimensionTerm(dimension: Dimension)
    | InvariantTerm(invariantId: string, version: int, scope: seq<Resource>, params: Bytes)
    | PolicyTerm(policyDomain: string, stateKind: string, sources: seq<string>, requirement: Requirement)

  // A grant names its parent by identity; `Id` is 32 bytes on the wire and the digest's preimage in the ledger.
  datatype Lineage<Id> = ROOT(issuer: Party) | DELEGATION(parent: Id, issuer: Party)

  datatype Grant<Id> = Grant(
    lineage: Lineage<Id>,
    principal: Party,
    holder: Party,
    notBefore: int,
    expiresAt: int,
    terms: seq<Term>,
    nonce: int)

  datatype Policy = Policy(principal: Party, sequence: int, terms: seq<Term>, nonce: int)

  // ---- Term keys and validity ----------------------------------------------------------------

  datatype Vocabulary = VModules | VAdapters | VMarkets | VAssets | VVenues | VRecipients | VActionTypes

  function VocabularyOf(m: Members): Vocabulary {
    match m
    case MODULES(_) => VModules
    case ADAPTERS(_) => VAdapters
    case MARKETS(_) => VMarkets
    case ASSETS(_) => VAssets
    case VENUES(_) => VVenues
    case RECIPIENTS(_) => VRecipients
    case ACTION_TYPES(_) => VActionTypes
  }

  datatype TermKey =
    | SetKey(vocabulary: Vocabulary)
    | RightKey(code: nat)
    | BoundKey(boundId: string, polarity: Polarity)
    | WindowKey(domain: string)
    | DimensionKey(dimensionId: string)
    | InvariantKey(invariantId: string, version: int, scope: seq<Resource>)
    | PolicyKey(policyDomain: string, stateKind: string)

  function RightCode(r: Right): nat {
    match r
    case OPEN_RISK => 1
    case REDUCE_RISK => 2
    case TRANSFER_OUT => 3
    case DELEGATE(_) => 4
  }

  // What a term is unique by within one grant or policy.
  function KeyOf(t: Term): TermKey {
    match t
    case SetTerm(m) => SetKey(VocabularyOf(m))
    case RightTerm(r) => RightKey(RightCode(r))
    case BoundTerm(id, polarity, _) => BoundKey(id, polarity)
    case WindowTerm(domain, _, _) => WindowKey(domain)
    case DimensionTerm(d) => DimensionKey(d.dimensionId)
    case InvariantTerm(id, version, scope, _) => InvariantKey(id, version, scope)
    case PolicyTerm(domain, kind, _, _) => PolicyKey(domain, kind)
  }

  predicate DistinctKeys(terms: seq<Term>) {
    forall i, j :: 0 <= i < j < |terms| ==> KeyOf(terms[i]) != KeyOf(terms[j])
  }

  predicate ValidQuantityBound(b: QuantityBound) {
    && (b.kind.COUNT? <==> b.unit == "COUNT")
    && ValidUnit(b.unit)
    && b.decimals <= MAX_DECIMALS
    && 0 <= b.atoms <= UINT256_MAX
  }

  predicate AssetKind(k: ResourceKind) {
    k.CANONICAL_ASSET? || k.REPRESENTATION_ASSET?
  }

  predicate ValidResource(r: Resource) {
    ValidIdentifier(r.domain) && ValidIdentifier(r.localId)
  }

  predicate ValidModule(m: ModuleRef) {
    && ValidIdentifier(m.domainId) && ValidIdentifier(m.moduleId) && 0 <= m.version <= UINT32_MAX
    && IsDigest(m.digest) && !AllZero(m.digest)
  }

  predicate ValidDimension(d: Dimension) {
    && ValidIdentifier(d.dimensionId)
    && ValidQuantityBound(d.limit)
    && LedgerTrackable(d.limit.kind)
    && (d.accounting.BUDGET? <==> d.restoration.NONE? || d.restoration.EPOCH?)
    && (d.epoch.Some? <==> d.restoration.EPOCH?)
    && (d.epoch.Some? ==> INT64_MIN <= d.epoch.value.anchor <= INT64_MAX && 0 < d.epoch.value.lengthSeconds <= UINT32_MAX)
    && (d.sign.NET? ==> SignedKind(d.limit.kind))
    && (d.scope.asset.Some? ==> ValidResource(d.scope.asset.value) && AssetKind(d.scope.asset.value.kind))
    && (d.scope.market.Some? ==> ValidResource(d.scope.market.value) && d.scope.market.value.kind.MARKET?)
    && (d.scope.domain.Some? ==> ValidIdentifier(d.scope.domain.value))
    && (d.scope.account.Some? ==> ValidResource(d.scope.account.value) && d.scope.account.value.kind.ACCOUNT?)
  }

  // The ledger dimensions among a list of terms, in their order.
  function DimensionsOf(terms: seq<Term>): seq<Dimension> {
    if terms == [] then []
    else (if terms[0].DimensionTerm? then [terms[0].dimension] else []) + DimensionsOf(terms[1..])
  }

  lemma {:induction false} DimensionsAreTerms(terms: seq<Term>, d: Dimension)
    ensures d in DimensionsOf(terms) <==> DimensionTerm(d) in terms
  {
    if terms != [] {
      DimensionsAreTerms(terms[1..], d);
      assert terms == [terms[0]] + terms[1..];
    }
  }

  lemma DimensionUnique(terms: seq<Term>, a: Dimension, b: Dimension)
    requires DistinctKeys(terms)
    requires a in DimensionsOf(terms) && b in DimensionsOf(terms) && a.dimensionId == b.dimensionId
    ensures a == b
  {
    DimensionsAreTerms(terms, a);
    DimensionsAreTerms(terms, b);
    var i :| 0 <= i < |terms| && terms[i] == DimensionTerm(a);
    var j :| 0 <= j < |terms| && terms[j] == DimensionTerm(b);
    assert KeyOf(terms[i]) == KeyOf(terms[j]);
  }
}
