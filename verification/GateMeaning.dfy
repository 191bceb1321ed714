// What a gate artifact says, field by field, from the market, the record and the terms alone
// (packages/evm-robinhood/src/gate.ts:77-177; market.ts:65-87; issuance.ts:196-202; execution-gate/src/commitment.ts:37-100).
module GateMeaning {
  import opened Common
  import opened Core
  import opened Decimals
  import opened Market
  import opened Gate
  import L = Ledger
  import FixedPoint

  // ---- Amounts ---------------------------------------------------------------------------------

  // The least number of funding atoms worth the quantity at the typed price.
  predicate Gross(m: Market, quantity: nat, gross: int) {
    var owed := quantity * (m.priceAtoms * Pow10(m.fundingDecimals));
    var atom := Pow10(m.priceDecimals) * Pow10(m.representationDecimals);
    owed <= gross * atom < owed + atom
  }

  // The least number of atoms no smaller than the market's share of the gross amount.
  predicate Fee(m: Market, gross: int, fee: int) {
    gross * m.feeBps <= fee * 10_000 < gross * m.feeBps + 10_000
  }

  // At most one multiple of `atom` lies in a window of that length.
  lemma OneInWindow(a: int, b: int, owed: int, atom: int)
    requires atom > 0 && owed <= a * atom < owed + atom && owed <= b * atom < owed + atom
    ensures a == b
  {
    assert (a + 1) * atom == a * atom + atom && (b + 1) * atom == b * atom + atom;
    MulMonotone(a + 1, b, atom);
    MulMonotone(b + 1, a, atom);
  }

  // The venue's price per token, brought to the typed price's own scale.
  lemma AtTypedScale(m: Market, quantity: nat)
    requires Reviewed(m)
    ensures (quantity * VenuePrice(m).value) * Pow10(m.priceDecimals) == quantity * (m.priceAtoms * Pow10(m.fundingDecimals))
  {
    var p := VenuePrice(m).value;
    VenuePriceIsExact(m, p);
    MulAssoc(quantity, p, Pow10(m.priceDecimals));
  }

  lemma ScaleWindow(value: int, g: int, r: int, k: int)
    requires k > 0 && value <= g * r < value + r
    ensures value * k <= g * (k * r) < value * k + k * r
  {
    MulMonotone(value, g * r, k);
    MulMonotone(g * r + 1, value + r, k);
    MulAssoc(g, r, k);
    assert (g * r + 1) * k == (g * r) * k + k && (value + r) * k == value * k + r * k;
    assert r * k == k * r;
  }

  lemma GrossIsExact(m: Market, quantity: nat, gross: int)
    requires Reviewed(m)
    ensures Gross(m, quantity, gross) <==> gross == GrossCost(m, quantity)
  {
    GrossIs(m, quantity);
    AtTypedScale(m, quantity);
    var g, k, r := GrossCost(m, quantity), Pow10(m.priceDecimals), Pow10(m.representationDecimals);
    var value, owed, atom := quantity * VenuePrice(m).value, quantity * (m.priceAtoms * Pow10(m.fundingDecimals)), k * r;
    MulMonotone(1, k, r);
    hide GrossCost, VenuePrice, Reviewed, Pow10;
    ScaleWindow(value, g, r, k);
    if Gross(m, quantity, gross) {
      OneInWindow(gross, g, owed, atom);
    }
  }

  lemma FeeIsExact(m: Market, gross: nat, fee: int)
    requires 0 <= m.feeBps
    ensures Fee(m, gross, fee) <==> fee == FeeOn(m, gross)
  {
    ValueOfFee(gross, m.feeBps);
    CeilDivIs(gross * m.feeBps, 10_000, fee);
    hide CeilDiv;
    if Fee(m, gross, fee) {
      OneInWindow(fee, FeeOn(m, gross), gross * m.feeBps, 10_000);
    }
  }

  // ---- Names -----------------------------------------------------------------------------------

  // A chain's number in decimal, without leading zeros.
  predicate Names(digits: string, chainId: nat) {
    FixedPoint.Whole(digits) && FixedPoint.Value(digits) == chainId
  }

  lemma NamesOnce(digits: string, chainId: nat)
    ensures Names(digits, chainId) <==> digits == FixedPoint.Digits(chainId)
  {
    FixedPoint.DigitsRead(chainId);
    if Names(digits, chainId) {
      FixedPoint.DigitsUnique(digits);
    }
  }

  // ---- The three parts of an artifact ----------------------------------------------------------

  predicate Settles(x: Amount, m: Market, atoms: int) {
    x.unit == m.settlementUnit && x.decimals == m.fundingDecimals && x.atoms == atoms
  }

  predicate IsAsset(x: Asset, m: Market) {
    x.assetClass == m.assetClass && x.idScheme == m.idScheme && x.value == m.assetValue
  }

  // What the principal signs: one nonce of one principal and agent on one asset, issuer, chain and venue, worth at most
  // the gross amount and debited at most that and its fee, from the decision to the authorization's end.
  predicate Mandated(x: Mandate, src: Source, t: ArtifactTerms, digits: string, gross: int, fee: int) {
    var m := t.market;
    && x.version == 2
    && x.mandateId == Keccak([Text("mandate/evm-robinhood/gate-mandate-id"), Number(1), src.executionId,
                              Keccak([Text("mandate-core/v1/reservation"), src.reservation.action, Number(src.reservation.generation)]),
                              Number(src.generation), Raw(src.adapter.digest)])
    && x.nonce == t.nonce && x.principal == t.principal && x.agent == t.agent
    && IsAsset(x.canonicalAsset, m) && x.side == 1
    && Settles(x.maxNotional, m, gross) && Settles(x.economicLimit, m, gross + fee)
    && x.maxDeviationBps == 0 && x.syntheticPolicy == (if m.synthetic then 2 else 1)
    && x.allowedIssuers == [m.issuer] && x.allowedChains == ["eip155:" + digits] && x.allowedVenues == [m.venueId]
    && x.requiredEpoch == 1 && x.maxPriceAge == 60 && x.maxCorporateActionAge == 3600 && x.haltPolicy == 1
    && x.createdAt == x.notBefore == src.evaluatedAt && x.expiresAt == src.validUntil
  }

  // What the agent offers: the token's own quantity at the typed price, the gross amount and its fee, on the authority
  // of the record and of the reviewed market.
  predicate Offered(x: Candidate, src: Source, t: ArtifactTerms, digits: string, gross: int, fee: int) {
    var m := t.market;
    && x.version == 3 && x.representationId == "eip155:" + digits + "/erc20:" + m.representation
    && IsAsset(x.canonicalAsset, m) && x.issuer == m.issuer && x.chain == "eip155:" + digits && x.venue == m.venueId
    && x.side == 1 && x.agent == t.agent
    && x.quantity.unit == m.quantityUnit && x.quantity.decimals == m.representationDecimals && x.quantity.atoms == t.quantity
    && x.executionPrice.numeratorUnit == m.settlementUnit && x.executionPrice.denominatorUnit == m.quantityUnit
    && x.executionPrice.decimals == m.priceDecimals && x.executionPrice.atoms == m.priceAtoms
    && Settles(x.notional, m, gross) && Settles(x.feeTotal, m, fee)
    && x.evaluationStateId == "mandate-core.authorization-record" && x.evaluationStateDigest == src.authorizationId
    && x.registrySnapshotDigest == ReviewedMarketDigest(t.gate, m) && x.corporateActionEpoch == 1
  }

  // What is paid, to whom and until when.
  predicate Pays(x: Terms, t: ArtifactTerms, debit: int) {
    x.recipient == t.principal && x.fundingLimit == debit && x.deadline == t.deadline && x.executionData == []
  }

  // The digests are those of the artifact's own parts.
  predicate SealedBy(a: GateArtifact) {
    && a.mandateDigest == MandateDigest(a.mandate)
    && a.candidateDigest == CandidateDigest(a.candidate)
    && a.commitment == ExecutionCommitment(MandateDigest(a.mandate), CandidateDigest(a.candidate), a.terms)
  }

  predicate Says(a: GateArtifact, src: Source, t: ArtifactTerms, digits: string, gross: int, fee: int) {
    && Mandated(a.mandate, src, t, digits, gross, fee)
    && Offered(a.candidate, src, t, digits, gross, fee)
    && Pays(a.terms, t, gross + fee)
    && SealedBy(a)
    && a.domain.chainId == t.gate.chainId && a.domain.contract == t.gate.gate
  }

  // Every field of what is built.
  lemma BuildsExactly(src: Source, t: ArtifactTerms, digits: string, gross: int, fee: int)
    requires Reviewed(t.market) && Names(digits, t.gate.chainId) && Gross(t.market, t.quantity, gross) && Fee(t.market, gross, fee)
    ensures var a := BuildGateArtifact(src, t);
            Says(a, src, t, digits, gross, fee) && a.domain.name == "Mandate" && a.domain.version == "1"
  {
    NamesOnce(digits, t.gate.chainId);
    GrossIsExact(t.market, t.quantity, gross);
    GrossIs(t.market, t.quantity);
    FeeIsExact(t.market, gross, fee);
    hide Gross, Fee, GrossCost, FeeOn, FixedPoint.Digits, MandateDigest, CandidateDigest, ExecutionCommitment, ReviewedMarketDigest;
  }

  // An artifact passes exactly when its deadline is inside the ceiling and each of its fields is the one these facts give.
  lemma PassesExactly(a: GateArtifact, src: Source, t: ArtifactTerms, digits: string, gross: int, fee: int)
    requires Reviewed(t.market) && Names(digits, t.gate.chainId) && Gross(t.market, t.quantity, gross) && Fee(t.market, gross, fee)
    ensures CheckGateArtifact(a, src, t).None? <==> t.deadline < src.validUntil && Says(a, src, t, digits, gross, fee)
  {
    BuildsExactly(src, t, digits, gross, fee);
    CheckIsExact(a, src, t);
    hide CheckGateArtifact, BuildGateArtifact, MandateDigest, CandidateDigest, ExecutionCommitment, ReviewedMarketDigest, Gross, Fee,
      Reviewed, Names;
    var b := BuildGateArtifact(src, t);
    if Says(a, src, t, digits, gross, fee) {
      assert a.mandate == b.mandate && a.candidate == b.candidate && a.terms == b.terms;
    }
  }

  // What the refusals of the check say is wrong with the artifact: with what it is for and what it pays,
  predicate BlamesContent(code: string, a: GateArtifact, src: Source, t: ArtifactTerms, debit: int) {
    && (code == "DEADLINE_NOT_BEFORE_CEILING" ==> t.deadline >= src.validUntil)
    && (code == "PRINCIPAL_OR_RECIPIENT_MISMATCH" ==> a.mandate.principal != t.principal || a.terms.recipient != t.principal)
    && (code == "AGENT_MISMATCH" ==> a.mandate.agent != t.agent || a.candidate.agent != t.agent)
    && (code == "QUANTITY_MISMATCH" ==> a.candidate.quantity.atoms != t.quantity)
    && (code == "DEBIT_MISMATCH" ==> a.terms.fundingLimit != debit || a.mandate.economicLimit.atoms != debit)
    && (code == "EXECUTION_DATA_NOT_EMPTY" ==> a.terms.executionData != [])
  }

  // or with its names and digests.
  predicate BlamesIdentity(code: string, a: GateArtifact, src: Source, t: ArtifactTerms) {
    && (code == "MANDATE_IDENTITY_MISMATCH" ==>
          a.mandate.nonce != t.nonce || a.mandate.mandateId != GateMandateId(src.executionId, src.reservation, src.generation, src.adapter))
    && (code == "EXPIRY_MISMATCH" ==> a.mandate.expiresAt != src.validUntil)
    && (code == "DIGEST_MISMATCH" ==> a.mandateDigest != MandateDigest(a.mandate) || a.candidateDigest != CandidateDigest(a.candidate))
    && (code == "COMMITMENT_MISMATCH" ==> a.commitment != ExecutionCommitment(a.mandateDigest, a.candidateDigest, a.terms))
    && (code == "DOMAIN_MISMATCH" ==> a.domain.chainId != t.gate.chainId || a.domain.contract != t.gate.gate)
  }

  lemma RefusalsBlame(a: GateArtifact, src: Source, t: ArtifactTerms, gross: int, fee: int)
    requires Reviewed(t.market) && Gross(t.market, t.quantity, gross) && Fee(t.market, gross, fee)
    requires CheckGateArtifact(a, src, t).Some?
    ensures BlamesContent(CheckGateArtifact(a, src, t).value, a, src, t, gross + fee)
    ensures BlamesIdentity(CheckGateArtifact(a, src, t).value, a, src, t)
  {
    GrossIsExact(t.market, t.quantity, gross);
    GrossIs(t.market, t.quantity);
    FeeIsExact(t.market, gross, fee);
    hide Gross, Fee, GrossCost, FeeOn;
    assert BuyCost(t.market, t.quantity) == gross + fee;
    hide BuyCost, Reviewed;
    BlamesRightly(a, src, t, gross + fee);
    NamesRightly(a, src, t);
  }

  lemma BlamesRightly(a: GateArtifact, src: Source, t: ArtifactTerms, debit: int)
    requires Reviewed(t.market) && BuyCost(t.market, t.quantity) == debit && CheckGateArtifact(a, src, t).Some?
    ensures BlamesContent(CheckGateArtifact(a, src, t).value, a, src, t, debit)
  {
    hide BuyCost, Reviewed, MandateDigest, CandidateDigest, ExecutionCommitment, GateMandateId, BuildGateArtifact;
  }

  lemma NamesRightly(a: GateArtifact, src: Source, t: ArtifactTerms)
    requires Reviewed(t.market) && CheckGateArtifact(a, src, t).Some?
    ensures BlamesIdentity(CheckGateArtifact(a, src, t).value, a, src, t)
  {
    hide BuyCost, Reviewed, MandateDigest, CandidateDigest, ExecutionCommitment, GateMandateId, BuildGateArtifact;
  }

  // ---- Terms -----------------------------------------------------------------------------------

  // The last second not beyond `limit` and strictly before `end`.
  predicate LastBefore(d: int, limit: int, end: int) {
    d <= limit && d < end && (d == limit || d + 1 == end)
  }

  // The deadline is the last second not beyond the configured distance and strictly before the end; without one from now
  // on there are no terms.
  lemma TermsExactly(c: SignerConfig, market: Market, quantity: nat, validUntil: int, now: int, nonce: int)
    ensures var r := TermsFor(c, market, quantity, validUntil, now, nonce);
            && (r.Ok? <==> c.deadlineSeconds >= 0 && now < validUntil)
            && (r.Refused? ==> r.code == "AUTHORIZATION_LIFETIME_ENDED")
            && (r.Ok? ==> LastBefore(r.value.deadline, now + c.deadlineSeconds, validUntil)
                          && r.value == ArtifactTerms(c.gate, market, c.principalAddress, c.agentAddress, quantity, nonce, r.value.deadline))
  {
  }

  // ---- Digests ---------------------------------------------------------------------------------

  // The order in which the gate's own structures are hashed.
  lemma HashedInOrder(m: Mandate, c: Candidate, x: Terms, d: Digest, e: Digest)
    ensures MandateDigest(m).Keccak? && MandateDigest(m).parts
         == [ Text("MANDATE.MANDATE.V2"), Number(m.version), m.mandateId, Number(m.nonce), Text(m.principal), Text(m.agent),
              AssetDigest(m.canonicalAsset), Number(m.side), AmountDigest(m.maxNotional), AmountDigest(m.economicLimit),
              Number(m.maxDeviationBps), Number(m.syntheticPolicy), TextsDigest(m.allowedIssuers), TextsDigest(m.allowedChains),
              TextsDigest(m.allowedVenues), Number(m.requiredEpoch), Number(m.maxPriceAge), Number(m.maxCorporateActionAge),
              Number(m.haltPolicy), Number(m.createdAt), Number(m.notBefore), Number(m.expiresAt) ]
    ensures CandidateDigest(c).Keccak? && CandidateDigest(c).parts
         == [ Text("MANDATE.CANDIDATE.V3"), Number(c.version), Text(c.representationId), AssetDigest(c.canonicalAsset), Text(c.issuer),
              Text(c.chain), Text(c.venue), Number(c.side), Text(c.agent), AmountDigest(c.quantity), PriceDigest(c.executionPrice),
              AmountDigest(c.notional), AmountDigest(c.feeTotal), Text(c.evaluationStateId), c.evaluationStateDigest,
              c.registrySnapshotDigest, Number(c.corporateActionEpoch) ]
    ensures ExecutionCommitment(d, e, x).Keccak? && ExecutionCommitment(d, e, x).parts[1..6]
         == [d, e, Text(x.recipient), Number(x.fundingLimit), Number(x.deadline)]
  {
    hide AssetDigest, AmountDigest, TextsDigest, PriceDigest;
  }

  // The digest a candidate cites fixes the whole reviewed market and the gate it trades through.
  lemma MarketTells(gate: Deployment, m: Market, other: Deployment, n: Market)
    requires ReviewedMarketDigest(gate, m) == ReviewedMarketDigest(other, n)
    ensures gate == other && m == n
  {
    var x, y := ReviewedMarketDigest(gate, m).parts, ReviewedMarketDigest(other, n).parts;
    assert x[1] == y[1] && x[2] == y[2] && x[3] == y[3] && x[4] == y[4] && x[5] == y[5] && x[6] == y[6] && x[7] == y[7];
    assert x[8] == y[8] && x[9] == y[9] && x[11] == y[11] && x[12] == y[12] && x[13] == y[13] && x[14] == y[14];
    assert x[15] == y[15] && x[16] == y[16] && x[17] == y[17] && x[18] == y[18];
    AssetTells(AssetOf(m), AssetOf(n));
  }
}
