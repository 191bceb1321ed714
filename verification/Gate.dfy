// The artifact one authorization determines, and the check applied before admission and before signing
// (packages/evm-robinhood/src/gate.ts; issuance.ts:188-213). Digests are modelled injectively by their preimages.
module Gate {
  import opened Common
  import opened Core
  import opened Market
  import L = Ledger
  import FixedPoint

  datatype Asset = Asset(assetClass: string, idScheme: string, value: string)

  datatype Amount = Amount(unit: string, decimals: int, atoms: int)

  datatype Price = Price(numeratorUnit: string, denominatorUnit: string, decimals: int, atoms: int)

  datatype Mandate = Mandate(
    version: int, mandateId: Digest, nonce: int, principal: string, agent: string, canonicalAsset: Asset, side: int,
    maxNotional: Amount, economicLimit: Amount, maxDeviationBps: int, syntheticPolicy: int,
    allowedIssuers: seq<string>, allowedChains: seq<string>, allowedVenues: seq<string>,
    requiredEpoch: int, maxPriceAge: int, maxCorporateActionAge: int, haltPolicy: int,
    createdAt: int, notBefore: int, expiresAt: int)

  datatype Candidate = Candidate(
    version: int, representationId: string, canonicalAsset: Asset, issuer: string, chain: string, venue: string, side: int,
    agent: string, quantity: Amount, executionPrice: Price, notional: Amount, feeTotal: Amount,
    evaluationStateId: string, evaluationStateDigest: Digest, registrySnapshotDigest: Digest, corporateActionEpoch: int)

  datatype Terms = Terms(recipient: string, fundingLimit: int, deadline: int, executionData: Bytes)

  datatype Domain = Domain(name: string, version: string, chainId: nat, contract: string)

  datatype GateArtifact = GateArtifact(
    mandate: Mandate, candidate: Candidate, terms: Terms,
    mandateDigest: Digest, candidateDigest: Digest, commitment: Digest, domain: Domain)

  datatype Deployment = Deployment(chainId: nat, gate: string)

  // What building reads of an authorization record.
  datatype Source = Source(
    executionId: Digest, authorizationId: Digest, reservation: L.ReservationId, generation: int,
    adapter: AdapterRef, evaluatedAt: int, validUntil: int)

  datatype ArtifactTerms = ArtifactTerms(
    gate: Deployment, market: Market, principal: string, agent: string, quantity: nat, nonce: int, deadline: int)

  const BUY: int := 1
  const SYNTHETIC_FORBIDDEN: int := 1
  const SYNTHETIC_ALLOWED: int := 2
  const FORBID_WHEN_HALTED: int := 1
  const EVALUATION_STATE_ID: string := "mandate-core.authorization-record"
  const MANDATE_TAG: string := "MANDATE.MANDATE.V2"
  const CANDIDATE_TAG: string := "MANDATE.CANDIDATE.V3"
  const MARKET_TAG: string := "robinhood-evm/v1/gate-market"
  const EXECUTION_TYPE: string := "ExecutionAuthorization(bytes32 mandateDigest,bytes32 candidateDigest,address recipient,"
    + "uint256 fundingLimit,uint64 deadline,bytes executionData)"

  // ---- Digests ---------------------------------------------------------------------------------

  function AssetDigest(a: Asset): Digest {
    Keccak([Text(a.assetClass), Text(a.idScheme), Text(a.value)])
  }

  function AmountDigest(a: Amount): Digest {
    Keccak([Text(a.unit), Number(a.decimals), Number(a.atoms)])
  }

  function PriceDigest(p: Price): Digest {
    Keccak([Text(p.numeratorUnit), Text(p.denominatorUnit), Number(p.decimals), Number(p.atoms)])
  }

  function TextsDigest(xs: seq<string>): Digest {
    Keccak(seq(|xs|, i requires 0 <= i < |xs| => Text(xs[i])))
  }

  function MandateParts(m: Mandate): seq<Digest> {
    [ Text(MANDATE_TAG), Number(m.version), m.mandateId, Number(m.nonce), Text(m.principal), Text(m.agent), AssetDigest(m.canonicalAsset),
      Number(m.side), AmountDigest(m.maxNotional), AmountDigest(m.economicLimit), Number(m.maxDeviationBps),
      Number(m.syntheticPolicy), TextsDigest(m.allowedIssuers), TextsDigest(m.allowedChains), TextsDigest(m.allowedVenues),
      Number(m.requiredEpoch), Number(m.maxPriceAge), Number(m.maxCorporateActionAge), Number(m.haltPolicy),
      Number(m.createdAt), Number(m.notBefore), Number(m.expiresAt) ]
  }

  function MandateDigest(m: Mandate): Digest {
    Keccak(MandateParts(m))
  }

  function CandidateParts(c: Candidate): seq<Digest> {
    [ Text(CANDIDATE_TAG), Number(c.version), Text(c.representationId), AssetDigest(c.canonicalAsset), Text(c.issuer), Text(c.chain), Text(c.venue),
      Number(c.side), Text(c.agent), AmountDigest(c.quantity), PriceDigest(c.executionPrice), AmountDigest(c.notional),
      AmountDigest(c.feeTotal), Text(c.evaluationStateId), c.evaluationStateDigest, c.registrySnapshotDigest,
      Number(c.corporateActionEpoch) ]
  }

  function CandidateDigest(c: Candidate): Digest {
    Keccak(CandidateParts(c))
  }

  // One value that fixes mandate, candidate and terms together.
  function ExecutionCommitment(mandateDigest: Digest, candidateDigest: Digest, terms: Terms): Digest {
    Keccak([Keccak([Text(EXECUTION_TYPE)]), mandateDigest, candidateDigest, Text(terms.recipient), Number(terms.fundingLimit),
      Number(terms.deadline), Keccak([Raw(terms.executionData)])])
  }

  function ReservationDigest(r: L.ReservationId): Digest {
    Keccak([Text("mandate-core/v1/reservation"), r.action, Number(r.generation)])
  }

  // A mandate's name, different for every execution, reservation, generation and adapter.
  function GateMandateId(executionId: Digest, reservation: L.ReservationId, generation: int, adapter: AdapterRef): Digest {
    Keccak([Text("mandate/evm-robinhood/gate-mandate-id"), Number(1), executionId, ReservationDigest(reservation),
      Number(generation), Raw(adapter.digest)])
  }

  // A reviewed market together with the gate it trades through.
  function ReviewedMarketDigest(gate: Deployment, m: Market): Digest {
    Keccak([ Text(MARKET_TAG), Number(gate.chainId), Text(gate.gate), Text(m.representation), Text(m.fundingToken), Text(m.adapter),
      Text(m.venue), Number(m.representationDecimals), Number(m.fundingDecimals), Number(if m.synthetic then 1 else 0), Number(1),
      AssetDigest(AssetOf(m)), Text(m.issuer), Text(m.venueId), Text(m.quantityUnit), Text(m.settlementUnit),
      Number(m.priceDecimals), Number(m.priceAtoms), Number(m.feeBps) ])
  }

  function AssetOf(m: Market): Asset {
    Asset(m.assetClass, m.idScheme, m.assetValue)
  }

  function Caip2(chainId: nat): string {
    "eip155:" + FixedPoint.Digits(chainId)
  }

  // Slots are numbered per chain, gate and principal.
  function SlotScope(chainId: nat, gate: string, principal: string): string {
    "evm:" + FixedPoint.Digits(chainId) + ":gate:" + gate + ":principal:" + principal
  }

  function AccountLocalId(chainId: nat, address: string): string {
    Caip2(chainId) + ":account:" + address
  }

  // ---- Building and checking -------------------------------------------------------------------

  function Settle(m: Market, atoms: int): Amount {
    Amount(m.settlementUnit, m.fundingDecimals, atoms)
  }

  function BuildMandate(src: Source, t: ArtifactTerms): Mandate
    requires Reviewed(t.market)
  {
    var m := t.market;
    Mandate(
      2, GateMandateId(src.executionId, src.reservation, src.generation, src.adapter), t.nonce, t.principal, t.agent, AssetOf(m), BUY,
      Settle(m, GrossCost(m, t.quantity)), Settle(m, BuyCost(m, t.quantity)), 0, if m.synthetic then SYNTHETIC_ALLOWED else SYNTHETIC_FORBIDDEN,
      [m.issuer], [Caip2(t.gate.chainId)], [m.venueId], 1, 60, 3600, FORBID_WHEN_HALTED, src.evaluatedAt, src.evaluatedAt, src.validUntil)
  }

  function BuildCandidate(src: Source, t: ArtifactTerms): Candidate
    requires Reviewed(t.market)
  {
    var m := t.market;
    var gross := GrossCost(m, t.quantity);
    Candidate(
      3, Caip2(t.gate.chainId) + "/erc20:" + m.representation, AssetOf(m), m.issuer, Caip2(t.gate.chainId), m.venueId, BUY, t.agent,
      Amount(m.quantityUnit, m.representationDecimals, t.quantity),
      Price(m.settlementUnit, m.quantityUnit, m.priceDecimals, m.priceAtoms), Settle(m, gross), Settle(m, FeeOn(m, gross)),
      EVALUATION_STATE_ID, src.authorizationId, ReviewedMarketDigest(t.gate, m), 1)
  }

  function GateDomain(gate: Deployment): Domain {
    Domain("Mandate", "1", gate.chainId, gate.gate)
  }

  function BuildGateArtifact(src: Source, t: ArtifactTerms): GateArtifact
    requires Reviewed(t.market)
  {
    var mandate, candidate := BuildMandate(src, t), BuildCandidate(src, t);
    var terms := Terms(t.principal, BuyCost(t.market, t.quantity), t.deadline, []);
    var md, cd := MandateDigest(mandate), CandidateDigest(candidate);
    GateArtifact(mandate, candidate, terms, md, cd, ExecutionCommitment(md, cd, terms), GateDomain(t.gate))
  }

  // Why an artifact is not the one its source and terms determine.
  function CheckGateArtifact(a: GateArtifact, src: Source, t: ArtifactTerms): Option<string>
    requires Reviewed(t.market)
  {
    var expected := BuildGateArtifact(src, t);
    if t.deadline >= src.validUntil then Some("DEADLINE_NOT_BEFORE_CEILING")
    else if a.mandate.principal != t.principal || a.terms.recipient != t.principal then Some("PRINCIPAL_OR_RECIPIENT_MISMATCH")
    else if a.mandate.agent != t.agent || a.candidate.agent != t.agent then Some("AGENT_MISMATCH")
    else if a.candidate.quantity.atoms != t.quantity then Some("QUANTITY_MISMATCH")
    else if a.terms.fundingLimit != BuyCost(t.market, t.quantity) || a.mandate.economicLimit.atoms != a.terms.fundingLimit
    then Some("DEBIT_MISMATCH")
    else if a.terms.executionData != [] then Some("EXECUTION_DATA_NOT_EMPTY")
    else if a.mandate.mandateId != GateMandateId(src.executionId, src.reservation, src.generation, src.adapter)
              || a.mandate.nonce != t.nonce
    then Some("MANDATE_IDENTITY_MISMATCH")
    else if a.mandate.expiresAt != src.validUntil then Some("EXPIRY_MISMATCH")
    else if a.mandateDigest != MandateDigest(a.mandate) || a.candidateDigest != CandidateDigest(a.candidate) then Some("DIGEST_MISMATCH")
    else if a.commitment != ExecutionCommitment(a.mandateDigest, a.candidateDigest, a.terms) then Some("COMMITMENT_MISMATCH")
    else if a.mandateDigest != expected.mandateDigest || a.candidateDigest != expected.candidateDigest
              || a.commitment != expected.commitment
    then Some("ARTIFACT_NOT_DERIVED")
    else if a.domain.chainId != t.gate.chainId || a.domain.contract != t.gate.gate then Some("DOMAIN_MISMATCH")
    else None
  }

  // ---- Digests tell their contents apart -------------------------------------------------------

  lemma TextsTell(xs: seq<string>, ys: seq<string>)
    requires TextsDigest(xs) == TextsDigest(ys)
    ensures xs == ys
  {
    var a, b := TextsDigest(xs).parts, TextsDigest(ys).parts;
    assert |xs| == |a| == |b| == |ys|;
    forall i | 0 <= i < |xs| ensures xs[i] == ys[i] {
      assert a[i] == Text(xs[i]) && b[i] == Text(ys[i]);
    }
  }

  lemma AssetTells(a: Asset, b: Asset)
    requires AssetDigest(a) == AssetDigest(b)
    ensures a == b
  {
    var x, y := AssetDigest(a).parts, AssetDigest(b).parts;
    assert x[0] == y[0] && x[1] == y[1] && x[2] == y[2];
  }

  lemma AmountTells(a: Amount, b: Amount)
    requires AmountDigest(a) == AmountDigest(b)
    ensures a == b
  {
    var x, y := AmountDigest(a).parts, AmountDigest(b).parts;
    assert x[0] == y[0] && x[1] == y[1] && x[2] == y[2];
  }

  lemma PriceTells(a: Price, b: Price)
    requires PriceDigest(a) == PriceDigest(b)
    ensures a == b
  {
    var x, y := PriceDigest(a).parts, PriceDigest(b).parts;
    assert x[0] == y[0] && x[1] == y[1] && x[2] == y[2] && x[3] == y[3];
  }

  lemma MandateTells(m: Mandate, n: Mandate)
    requires MandateDigest(m) == MandateDigest(n)
    ensures m == n
  {
    hide AssetDigest, AmountDigest, TextsDigest;
    var x, y := MandateParts(m), MandateParts(n);
    assert x[0] == y[0] && x[1] == y[1] && x[2] == y[2] && x[3] == y[3] && x[4] == y[4] && x[5] == y[5] && x[6] == y[6];
    assert x[7] == y[7] && x[8] == y[8] && x[9] == y[9] && x[10] == y[10] && x[11] == y[11] && x[12] == y[12] && x[13] == y[13];
    assert x[14] == y[14] && x[15] == y[15] && x[16] == y[16] && x[17] == y[17] && x[18] == y[18] && x[19] == y[19] && x[20] == y[20]
           && x[21] == y[21];
    AssetTells(m.canonicalAsset, n.canonicalAsset);
    AmountTells(m.maxNotional, n.maxNotional);
    AmountTells(m.economicLimit, n.economicLimit);
    TextsTell(m.allowedIssuers, n.allowedIssuers);
    TextsTell(m.allowedChains, n.allowedChains);
    TextsTell(m.allowedVenues, n.allowedVenues);
  }

  lemma CandidateTells(c: Candidate, d: Candidate)
    requires CandidateDigest(c) == CandidateDigest(d)
    ensures c == d
  {
    hide AssetDigest, AmountDigest, PriceDigest;
    var x, y := CandidateParts(c), CandidateParts(d);
    assert x[0] == y[0] && x[1] == y[1] && x[2] == y[2] && x[3] == y[3] && x[4] == y[4] && x[5] == y[5] && x[6] == y[6] && x[7] == y[7];
    assert x[8] == y[8] && x[9] == y[9] && x[10] == y[10] && x[11] == y[11] && x[12] == y[12] && x[13] == y[13] && x[14] == y[14] && x[15] == y[15]
           && x[16] == y[16];
    AssetTells(c.canonicalAsset, d.canonicalAsset);
    AmountTells(c.quantity, d.quantity);
    PriceTells(c.executionPrice, d.executionPrice);
    AmountTells(c.notional, d.notional);
    AmountTells(c.feeTotal, d.feeTotal);
  }

  lemma CommitmentTells(m: Digest, c: Digest, t: Terms, n: Digest, d: Digest, u: Terms)
    requires ExecutionCommitment(m, c, t) == ExecutionCommitment(n, d, u)
    ensures m == n && c == d && t == u
  {
    var x, y := ExecutionCommitment(m, c, t).parts, ExecutionCommitment(n, d, u).parts;
    assert x[0] == y[0] && x[1] == y[1] && x[2] == y[2] && x[3] == y[3] && x[4] == y[4] && x[5] == y[5] && x[6] == y[6];
    assert x[6].parts[0] == y[6].parts[0];
  }

  // A mandate made for one generation cannot be read as another's.
  lemma MandateIdTells(e: Digest, r: L.ReservationId, g: int, a: AdapterRef, f: Digest, s: L.ReservationId, h: int, b: AdapterRef)
    requires GateMandateId(e, r, g, a) == GateMandateId(f, s, h, b)
    ensures e == f && r == s && g == h && a.digest == b.digest
  {
    var x, y := GateMandateId(e, r, g, a).parts, GateMandateId(f, s, h, b).parts;
    assert x[2] == y[2] && x[3] == y[3] && x[4] == y[4] && x[5] == y[5];
    assert x[3].parts[1] == y[3].parts[1] && x[3].parts[2] == y[3].parts[2];
  }

  // ---- The check -------------------------------------------------------------------------------

  // An artifact passes exactly when it is the one built, its deadline is inside the ceiling, and at most the
  // name and version of its signing domain, which the check does not read, differ.
  lemma CheckIsExact(a: GateArtifact, src: Source, t: ArtifactTerms)
    requires Reviewed(t.market)
    ensures CheckGateArtifact(a, src, t) == None
       <==> t.deadline < src.validUntil
              && a == BuildGateArtifact(src, t).(domain := Domain(a.domain.name, a.domain.version, t.gate.chainId, t.gate.gate))
  {
    hide MandateDigest, CandidateDigest, ExecutionCommitment, GateMandateId, ReviewedMarketDigest, Caip2, BuyCost, GrossCost, FeeOn;
    var expected := BuildGateArtifact(src, t);
    if CheckGateArtifact(a, src, t) == None {
      MandateTells(a.mandate, expected.mandate);
      CandidateTells(a.candidate, expected.candidate);
      CommitmentTells(a.mandateDigest, a.candidateDigest, a.terms, expected.mandateDigest, expected.candidateDigest, expected.terms);
    }
  }

  // Two artifacts that pass for whatever sources and terms, with one commitment, have one mandate.
  lemma CommitmentNamesMandate(a: GateArtifact, s: Source, t: ArtifactTerms, b: GateArtifact, u: Source, v: ArtifactTerms)
    requires Reviewed(t.market) && Reviewed(v.market)
    requires CheckGateArtifact(a, s, t) == None && CheckGateArtifact(b, u, v) == None && a.commitment == b.commitment
    ensures a.mandate == b.mandate && a.mandateDigest == b.mandateDigest && a.candidate == b.candidate && a.terms == b.terms
  {
    hide BuildGateArtifact, MandateDigest, CandidateDigest, ExecutionCommitment, GateMandateId, BuyCost;
    CommitmentTells(a.mandateDigest, a.candidateDigest, a.terms, b.mandateDigest, b.candidateDigest, b.terms);
    MandateTells(a.mandate, b.mandate);
    CandidateTells(a.candidate, b.candidate);
  }

  // ---- Terms -----------------------------------------------------------------------------------

  datatype SignerConfig = SignerConfig(
    gate: Deployment, principal: Party, principalAddress: string, agentAddress: string,
    adapter: AdapterRef, policy: ModuleRef, deadlineSeconds: int)

  // The deadline is the configured distance away, cut to stay strictly before the authorization's end.
  function TermsFor(c: SignerConfig, market: Market, quantity: nat, validUntil: int, now: int, nonce: int): Result<ArtifactTerms> {
    var ceiling := validUntil - 1;
    var deadline := if now + c.deadlineSeconds < ceiling then now + c.deadlineSeconds else ceiling;
    if deadline < now then Refused("AUTHORIZATION_LIFETIME_ENDED")
    else Ok(ArtifactTerms(c.gate, market, c.principalAddress, c.agentAddress, quantity, nonce, deadline))
  }

  // What these terms build always passes, and both of its debit limits are the venue's exact quote.
  lemma TermsForBuild(c: SignerConfig, src: Source, market: Market, quantity: nat, now: int, nonce: int)
    requires Reviewed(market) && TermsFor(c, market, quantity, src.validUntil, now, nonce).Ok?
    ensures var t := TermsFor(c, market, quantity, src.validUntil, now, nonce).value;
            var a := BuildGateArtifact(src, t);
            && CheckGateArtifact(a, src, t) == None
            && a.mandate.economicLimit.atoms == a.terms.fundingLimit == BuyCost(market, quantity)
            && a.terms.recipient == a.mandate.principal == c.principalAddress
            && now <= a.terms.deadline < src.validUntil == a.mandate.expiresAt
            && a.terms.deadline <= now + c.deadlineSeconds
  {
    var t := TermsFor(c, market, quantity, src.validUntil, now, nonce).value;
    CheckIsExact(BuildGateArtifact(src, t), src, t);
  }
}
