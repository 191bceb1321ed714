// Runs of the issuance machine that get somewhere: from the empty ledger to a signed and recorded attempt, and on to one
// that recovery overtakes (packages/evm-robinhood/src/issuance.ts:266-329; signer.ts:40-55).
module IssuanceRun {
  import opened Common
  import opened Core
  import opened Decimals
  import opened Market
  import opened Gate
  import opened Issuance
  import opened IssuanceSafety
  import E = Engine
  import FixedPoint
  import L = Ledger
  import W = Wire

  // ---- Names fit the ledger's identifiers ------------------------------------------------------

  predicate NameText(s: string) {
    forall i :: 0 <= i < |s| ==> IsAlphanumeric(s[i]) || IsSeparator(s[i])
  }

  lemma DigitsAreName(n: nat)
    ensures NameText(FixedPoint.Digits(n))
  {
    FixedPoint.DigitsRead(n);
  }

  lemma AddressIsName(a: string)
    requires W.ValidAddress(a)
    ensures NameText(a) && !IsSeparator(a[41])
  {
    forall i | 0 <= i < |a| ensures IsAlphanumeric(a[i]) {
      assert i >= 2 ==> W.IsHexDigit(a[i]);
    }
  }

  lemma Joins(x: string, y: string)
    requires NameText(x) && NameText(y)
    ensures NameText(x + y)
  {
  }

  // What a signer's configuration must be for its names to be identifiers: two addresses and a 64-bit chain.
  predicate Addressed(c: SignerConfig) {
    W.ValidAddress(c.gate.gate) && W.ValidAddress(c.principalAddress) && c.gate.chainId <= UINT64_MAX
  }

  lemma ChainDigits(n: nat)
    requires n <= UINT64_MAX
    ensures |FixedPoint.Digits(n)| <= 20 && NameText(FixedPoint.Digits(n))
  {
    Pow10Sum(10, 10);
    Pow10Sum(5, 5);
    assert Pow10(5) == 100000 by {
      assert Pow10(4) == 10 * Pow10(3) && Pow10(3) == 10 * Pow10(2) && Pow10(2) == 10 * Pow10(1) && Pow10(1) == 10 * Pow10(0);
    }
    FixedPoint.DigitsShort(n, 20);
    DigitsAreName(n);
  }

  lemma ScopeIsIdentifier(c: SignerConfig)
    requires Addressed(c)
    ensures ValidIdentifier(SlotScope(c.gate.chainId, c.gate.gate, c.principalAddress))
  {
    var d, g, p := FixedPoint.Digits(c.gate.chainId), c.gate.gate, c.principalAddress;
    ChainDigits(c.gate.chainId);
    AddressIsName(g);
    AddressIsName(p);
    hide FixedPoint.Digits;
    Joins("evm:", d);
    Joins("evm:" + d, ":gate:");
    Joins("evm:" + d + ":gate:", g);
    Joins("evm:" + d + ":gate:" + g, ":principal:");
    Joins("evm:" + d + ":gate:" + g + ":principal:", p);
    var s := "evm:" + d + ":gate:" + g + ":principal:" + p;
    assert s[0] == 'e' && s[|s| - 1] == p[41];
  }

  lemma AccountIsIdentifier(c: SignerConfig)
    requires Addressed(c)
    ensures ValidIdentifier(AccountLocalId(c.gate.chainId, c.principalAddress))
  {
    var d, p := FixedPoint.Digits(c.gate.chainId), c.principalAddress;
    ChainDigits(c.gate.chainId);
    AddressIsName(p);
    hide FixedPoint.Digits;
    Joins("eip155:", d);
    Joins("eip155:" + d, ":account:");
    Joins("eip155:" + d + ":account:", p);
    var s := "eip155:" + d + ":account:" + p;
    assert s[0] == 'e' && s[|s| - 1] == p[41];
  }

  lemma KindIsIdentifier()
    ensures ValidIdentifier(ARTIFACT_KIND)
  {
    assert NameText(ARTIFACT_KIND);
  }

  // ---- A ledger with one open reservation ------------------------------------------------------

  function AcceptAll(): L.Rules {
    L.Rules((p, s) => true, (r, p, s) => true, (n, g, s) => true, (a, b, s) => true)
  }

  const NOTHING: L.Semantics := L.Semantics([], [])

  function PolicyFor(principal: Party): Policy {
    Policy(principal, 1, [], 0)
  }

  function GrantFor(principal: Party, m: ModuleRef): Grant<L.AuthorityId> {
    Grant(ROOT(principal), principal, principal, 0, 100, [SetTerm(MODULES([m]))], 0)
  }

  function PlanFor(principal: Party, m: ModuleRef): L.Plan {
    L.Plan(principal, L.AuthorityId(GrantFor(principal, m)), principal, Text("action"), 1, m, Text("implementation"),
      [L.Contribution(L.Quantity(CAPITAL, "USD", 0, 1, None), None, None, false)])
  }

  const RESERVED: L.ReservationId := L.ReservationId(Text("action"), 1)

  // One batch of one event at time zero.
  lemma Writes(s: L.State, e: L.Event, rules: L.Rules, u: L.State) returns (t: L.State)
    requires s.version < 100 && L.ApplyEvent(s, e, s.version + 1, rules) == Ok(u)
    ensures L.ApplyBatch(s, [e], rules) == Ok(t) && t == u.(version := t.version, head := t.head) && t.version == s.version + 1
  {
    hide L.ApplyEvent, L.ApplyBatch;
    E.SingleBatch(s, e, rules);
    t := u.(version := s.version + 1, head := L.Batch(s.principal, s.version + 1, s.head, [e]));
  }

  lemma PolicyWritten(principal: Party) returns (e: L.Event, t: L.State)
    ensures L.ApplyBatch(L.EmptyState(principal), [e], AcceptAll()) == Ok(t)
    ensures t.principal == principal && t.version == 1 && t.lastAt == Some(0) && t.policy.Some? && t.policy.value.policy == PolicyFor(principal)
    ensures t.nodes == map[] && t.targets == map[] && t.reservations == map[] && t.actions == map[]
    ensures t.attempts == map[] && t.artifacts == map[] && t.slots == map[] && t.reservationAttempts == map[]
  {
    var s, policy := L.EmptyState(principal), PolicyFor(principal);
    e := L.RegisterPolicy(0, policy, NOTHING);
    assert DimensionsOf(policy.terms) == [];
    var u := L.ApplyEvent(s, e, 1, AcceptAll()).value;
    t := Writes(s, e, AcceptAll(), u);
  }

  // The ledger after the policy and one root grant over the module.
  predicate Granted(t: L.State, principal: Party, m: ModuleRef) {
    var g := GrantFor(principal, m);
    var id := L.AuthorityId(g);
    && t.principal == principal && t.lastAt == Some(0) && t.version < 50
    && t.policy.Some? && t.policy.value.policy == PolicyFor(principal)
    && id in t.nodes && t.nodes[id].id == id && t.nodes[id].grant == g && t.nodes[id].revokedAt.None?
    && t.attempts == map[] && t.artifacts == map[] && t.slots == map[] && t.reservationAttempts == map[]
  }

  lemma GrantWritten(s: L.State, principal: Party, m: ModuleRef) returns (e: L.Event, t: L.State)
    requires s.principal == principal && s.version == 1 && s.lastAt == Some(0) && s.policy.Some? && s.policy.value.policy == PolicyFor(principal)
    requires s.nodes == map[] && s.reservations == map[] && s.actions == map[]
    requires s.attempts == map[] && s.artifacts == map[] && s.slots == map[] && s.reservationAttempts == map[]
    ensures L.ApplyBatch(s, [e], AcceptAll()) == Ok(t)
    ensures Granted(t, principal, m) && t.version == 2 && t.reservations == map[] && t.actions == map[]
  {
    var g := GrantFor(principal, m);
    e := L.RegisterGrant(0, g, NOTHING);
    assert L.ValidGrant(g);
    var u := L.ApplyEvent(s, e, 2, AcceptAll()).value;
    t := Writes(s, e, AcceptAll(), u);
  }

  // Its lineage is the grant alone, valid at all times before the grant ends.
  lemma GrantIsValid(t: L.State, principal: Party, m: ModuleRef, at: int)
    requires Granted(t, principal, m) && 0 <= at < 100
    ensures var id := L.AuthorityId(GrantFor(principal, m));
            && L.ResolveLineage(t.nodes, id, MAX_LINEAGE_LENGTH) == Ok([t.nodes[id]])
            && L.LineageRefusal(t, [t.nodes[id]], at).None?
  {
    var id := L.AuthorityId(GrantFor(principal, m));
    var node := t.nodes[id];
    assert [node][1..] == [] && L.NodesRefusal(principal, [node][1..], at) == None;
    assert L.NodesRefusal(principal, [node], at) == None;
  }

  lemma GrantAllows(t: L.State, principal: Party, m: ModuleRef)
    requires Granted(t, principal, m)
    ensures L.ModuleAllowed([t.nodes[L.AuthorityId(GrantFor(principal, m))]], m)
  {
    var node := t.nodes[L.AuthorityId(GrantFor(principal, m))];
    assert node.grant.terms[0].SetTerm? && m in node.grant.terms[0].members.modules;
    assert L.NodeAllowsModule(node.grant.terms, m);
  }

  // No dimension applies, so nothing is charged.
  lemma NothingCharged(t: L.State, principal: Party, m: ModuleRef)
    requires Granted(t, principal, m)
    ensures L.DeriveLegs([t.nodes[L.AuthorityId(GrantFor(principal, m))]], t.policy.value, PlanFor(principal, m).contributions, m.domainId, 0)
         == Ok([[]])
  {
    var node, cs := t.nodes[L.AuthorityId(GrantFor(principal, m))], PlanFor(principal, m).contributions;
    assert DimensionsOf(node.grant.terms) == [] by {
      assert node.grant.terms[1..] == [];
    }
    assert [node][1..] == [] && cs[1..] == [];
    assert L.LineageLegs([node][1..], cs[0], m.domainId, 0) == Ok([]);
    assert L.LineageLegs([node], cs[0], m.domainId, 0) == Ok([]);
    assert L.ContributionLegs([node], t.policy.value, cs[0], m.domainId, 0) == Ok([]);
    assert L.DeriveLegs([node], t.policy.value, cs[1..], m.domainId, 0) == Ok([]);
    var first: seq<L.LegDraft> := [];
    assert [first] + [] == [first];
  }

  // The ledger after the reservation.
  predicate Open(u: L.State, principal: Party, m: ModuleRef) {
    && Granted(u, principal, m)
    && RESERVED in u.reservations
    && var r := u.reservations[RESERVED];
       r.generation == 1 && r.action == Text("action") && r.moduleRef == m && r.status.ACTIVE? && r.authority == L.AuthorityId(GrantFor(principal, m))
  }

  lemma ReserveWritten(s: L.State, principal: Party, m: ModuleRef) returns (e: L.Event, t: L.State)
    requires Granted(s, principal, m) && s.version == 2 && s.reservations == map[] && s.actions == map[]
    ensures L.ApplyBatch(s, [e], AcceptAll()) == Ok(t) && Open(t, principal, m)
  {
    var plan, id := PlanFor(principal, m), L.AuthorityId(GrantFor(principal, m));
    var node := s.nodes[id];
    GrantIsValid(s, principal, m, 0);
    GrantAllows(s, principal, m);
    NothingCharged(s, principal, m);
    hide L.ResolveLineage, L.LineageRefusal, L.DeriveLegs, L.ModuleAllowed;
    assert L.DeriveReservation(s, plan, 0) == Ok(L.Derived(RESERVED, [node], [[]]));
    hide L.DeriveReservation;
    var legs: seq<seq<L.LegDraft>> := [[]];
    assert legs[1..] == [] && L.Flatten(legs) == [];
    assert L.CheckAvailability(s.targets, legs, 0) == Ok(map[]);
    e := L.Reserve(0, plan, L.LineageIds([node]), s.policy.value.id, L.AllEventLegs(legs));
    hide L.CheckAvailability;
    assert L.ValidPlan(plan);
    var u := L.ApplyEvent(s, e, 3, AcceptAll()).value;
    hide L.ApplyEvent;
    t := Writes(s, e, AcceptAll(), u);
  }

  // ---- The artifact and its admission ----------------------------------------------------------

  function TermsOf(c: SignerConfig, m: Market): ArtifactTerms {
    ArtifactTerms(c.gate, m, c.principalAddress, c.agentAddress, 1, 1, 10)
  }

  function SourceOf(c: SignerConfig): Source {
    Source(Text("execution"), Text("authorization"), RESERVED, 1, c.adapter, 0, 100)
  }

  function AdmissionOf(c: SignerConfig, m: ModuleRef, artifact: GateArtifact): L.Admission {
    L.Admission(
      L.AttemptId(RESERVED, 1, Text("action"), m, c.adapter, Text("execution"), 1), 1, RESERVED, 1, Text("action"), Text("execution"),
      m, c.adapter, Resource("eip155", ACCOUNT, AccountLocalId(c.gate.chainId, c.principalAddress)),
      L.Artifact(ARTIFACT_KIND, artifact.commitment), Some(L.Slot(SlotScope(c.gate.chainId, c.gate.gate, c.principalAddress), 1)), 11,
      Text("requirements"), Text("revalidation"))
  }

  lemma AdmissionShaped(c: SignerConfig, m: ModuleRef, market: Market)
    requires Addressed(c) && Reviewed(market)
    ensures L.AdmissionShape(AdmissionOf(c, m, BuildGateArtifact(SourceOf(c), TermsOf(c, market))))
  {
    ScopeIsIdentifier(c);
    AccountIsIdentifier(c);
    KindIsIdentifier();
    ShortName("eip155");
    hide ValidIdentifier, SlotScope, AccountLocalId, MandateDigest, CandidateDigest, BuildMandate, BuildCandidate, BuyCost;
  }

  lemma ShortName(s: string)
    requires s == "eip155"
    ensures ValidIdentifier(s)
  {
  }

  // The reducer accepts the admission while the reservation is open.
  lemma AdmissionWritten(s: L.State, principal: Party, c: SignerConfig, m: ModuleRef, market: Market) returns (t: L.State)
    requires Open(s, principal, m) && Addressed(c) && Reviewed(market)
    ensures var a := AdmissionOf(c, m, BuildGateArtifact(SourceOf(c), TermsOf(c, market)));
            && L.ApplyBatch(s, [L.AdmitAttempt(1, a)], AcceptAll()) == Ok(t)
            && a.attempt in t.attempts && t.attempts[a.attempt].admission == a
            && RESERVED in t.reservations && t.reservations[RESERVED].status.ACTIVE?
  {
    var artifact := BuildGateArtifact(SourceOf(c), TermsOf(c, market));
    AdmissionShaped(c, m, market);
    GrantIsValid(s, principal, m, 1);
    hide L.AdmissionShape, L.ResolveLineage, L.LineageRefusal, BuildGateArtifact, SlotScope, AccountLocalId;
    var a := AdmissionOf(c, m, artifact);
    var e := L.AdmitAttempt(1, a);
    assert L.ApplyAdmit(s, a, 1, s.version + 1).Ok?;
    var u := L.ApplyEvent(s, e, s.version + 1, AcceptAll()).value;
    hide L.ApplyEvent;
    t := Writes(s, e, AcceptAll(), u);
  }

  // ---- The run ---------------------------------------------------------------------------------

  lemma MovesLedger(c: Config, principal: Party, trace: seq<World>, e: L.Event, t: L.State) returns (more: seq<World>)
    requires Run(c, principal, trace) && L.ApplyBatch(trace[|trace| - 1].ledger, [e], c.rules) == Ok(t)
    ensures more == trace + [trace[|trace| - 1].(ledger := t)] && Run(c, principal, more)
  {
    var w := trace[|trace| - 1];
    hide Run, L.ApplyBatch, RunnerStep;
    var v := w.(ledger := t);
    assert LedgerMoves(c, w, v);
    more := trace + [v];
    RunExtends(c, principal, trace, v);
  }

  // A ledger with one open reservation, and one call that has not begun.
  lemma Begins(c: Config, principal: Party) returns (trace: seq<World>)
    requires c.rules == AcceptAll()
    ensures Run(c, principal, trace)
    ensures var w := trace[|trace| - 1];
            Open(w.ledger, principal, c.binding.moduleRef) && w.records == map[] && w.signatures == {} && w.runners == [Idle]
  {
    hide L.ApplyBatch, RunnerStep, LedgerMoves;
    var m := c.binding.moduleRef;
    trace := [World(L.EmptyState(principal), map[], {}, {}, map[], [])];
    var e, s := PolicyWritten(principal);
    trace := MovesLedger(c, principal, trace, e, s);
    var f, t := GrantWritten(s, principal, m);
    trace := MovesLedger(c, principal, trace, f, t);
    var g, u := ReserveWritten(t, principal, m);
    trace := MovesLedger(c, principal, trace, g, u);
    hide Run;
    var w := trace[|trace| - 1];
    var v := w.(runners := w.runners + [Idle]);
    RunExtends(c, principal, trace, v);
    trace := trace + [v];
  }

  // One call holding the admitted attempt of what it built, on an open reservation, and nothing recorded.
  predicate Ripe(c: Config, w: World, market: Market)
    requires Reviewed(market)
  {
    var artifact := BuildGateArtifact(SourceOf(c.signer), TermsOf(c.signer, market));
    var a := AdmissionOf(c.signer, c.binding.moduleRef, artifact);
    && w.records == map[] && w.runners == [Admitted(a.attempt, artifact, TermsOf(c.signer, market))]
    && Held(c, w.ledger, market)
  }

  predicate Held(c: Config, ledger: L.State, market: Market)
    requires Reviewed(market)
  {
    var a := AdmissionOf(c.signer, c.binding.moduleRef, BuildGateArtifact(SourceOf(c.signer), TermsOf(c.signer, market)));
    && a.attempt in ledger.attempts && ledger.attempts[a.attempt].admission == a
    && RESERVED in ledger.reservations && ledger.reservations[RESERVED].status.ACTIVE?
  }

  // The guard before admission lets the built artifact through.
  lemma ConstructsNext(c: Config, principal: Party, w: World, market: Market) returns (v: World)
    requires Reviewed(market) && Open(w.ledger, principal, c.binding.moduleRef) && w.runners == [Idle]
    ensures var source, terms := SourceOf(c.signer), TermsOf(c.signer, market);
            v == At(w, 0, Ready(BuildGateArtifact(source, terms), source, terms)) && Next(c, w, v)
  {
    var source, terms := SourceOf(c.signer), TermsOf(c.signer, market);
    var artifact := BuildGateArtifact(source, terms);
    CheckIsExact(artifact, source, terms);
    NoAttempts(w.ledger, principal, c.binding.moduleRef);
    hide Open, BuildGateArtifact, CheckGateArtifact, LedgerMoves, Admits, Signs;
    v := At(w, 0, Ready(artifact, source, terms));
    assert Constructs(w, v, 0);
    assert RunnerStep(c, w, v, 0);
  }

  // The admission names what was constructed.
  lemma NamesArtifact(c: Config, market: Market)
    requires Reviewed(market)
    ensures var source, terms := SourceOf(c.signer), TermsOf(c.signer, market);
            var artifact := BuildGateArtifact(source, terms);
            AdmissionFor(c, AdmissionOf(c.signer, c.binding.moduleRef, artifact), artifact, source, terms)
  {
    var source, terms := SourceOf(c.signer), TermsOf(c.signer, market);
    BuiltFor(source, terms);
    hide BuildGateArtifact, SlotScope, AccountLocalId;
  }

  lemma Admitting(c: Config, w: World, artifact: GateArtifact, source: Source, terms: ArtifactTerms, a: L.Admission, t: L.State)
    returns (v: World)
    requires w.runners == [Ready(artifact, source, terms)] && AdmissionFor(c, a, artifact, source, terms)
    requires L.ApplyBatch(w.ledger, [L.AdmitAttempt(1, a)], c.rules) == Ok(t)
    ensures v == At(w, 0, Admitted(a.attempt, artifact, terms)).(ledger := t) && Next(c, w, v)
  {
    hide L.ApplyBatch, AdmissionFor, Constructs, Signs, LedgerMoves;
    v := At(w, 0, Admitted(a.attempt, artifact, terms)).(ledger := t);
    assert Admits(c, w, v, 0);
    assert RunnerStep(c, w, v, 0);
  }

  // Construct and admit.
  lemma ConstructsAndAdmits(c: Config, principal: Party, w: World, market: Market) returns (ready: World, admitted: World)
    requires c.rules == AcceptAll() && Addressed(c.signer) && Reviewed(market)
    requires Open(w.ledger, principal, c.binding.moduleRef) && w.records == map[] && w.runners == [Idle]
    ensures Next(c, w, ready) && Next(c, ready, admitted) && Ripe(c, admitted, market)
  {
    hide L.ApplyBatch, Open, BuildGateArtifact, AdmissionFor, AdmissionOf, Next, Reviewed, Addressed;
    var source, terms := SourceOf(c.signer), TermsOf(c.signer, market);
    var artifact := BuildGateArtifact(source, terms);
    ready := ConstructsNext(c, principal, w, market);
    var t := AdmissionWritten(w.ledger, principal, c.signer, c.binding.moduleRef, market);
    NamesArtifact(c, market);
    admitted := Admitting(c, ready, artifact, source, terms, AdmissionOf(c.signer, c.binding.moduleRef, artifact), t);
  }

  lemma ExtendsTwice(c: Config, principal: Party, before: seq<World>, u: World, v: World) returns (trace: seq<World>)
    requires Run(c, principal, before) && Next(c, before[|before| - 1], u) && Next(c, u, v)
    ensures Run(c, principal, trace) && trace[|trace| - 1] == v
  {
    hide Next;
    RunExtends(c, principal, before, u);
    trace := before + [u];
    RunExtends(c, principal, trace, v);
    trace := trace + [v];
  }

  lemma NoAttempts(s: L.State, principal: Party, m: ModuleRef)
    requires Open(s, principal, m)
    ensures L.AttemptsOf(s, RESERVED) == []
  {
  }

  // Custody agrees to sign the admitted artifact.
  lemma CustodyAgrees(c: Config, ledger: L.State, market: Market)
    requires Reviewed(market) && c.binding.adapter == c.signer.adapter && Held(c, ledger, market)
    ensures var artifact := BuildGateArtifact(SourceOf(c.signer), TermsOf(c.signer, market));
            var a := AdmissionOf(c.signer, c.binding.moduleRef, artifact);
            VerifyAdmitted(Issuance.View(ledger, map[], InService(c.binding), 1), c.binding, c.signer.principalAddress, artifact,
              TermsOf(c.signer, market), ClaimOf(a)) == None
  {
    var source, terms := SourceOf(c.signer), TermsOf(c.signer, market);
    var artifact := BuildGateArtifact(source, terms);
    var a := AdmissionOf(c.signer, c.binding.moduleRef, artifact);
    CheckIsExact(artifact, source, terms);
    assert AttemptSource(a, artifact) == source;
    hide BuildGateArtifact, CheckGateArtifact, SlotScope, AccountLocalId;
    BuiltFor(source, terms);
  }

  lemma BuiltFor(source: Source, terms: ArtifactTerms)
    requires Reviewed(terms.market)
    ensures var a := BuildGateArtifact(source, terms);
            a.mandate.principal == terms.principal && a.mandate.nonce == terms.nonce && a.terms.deadline == terms.deadline
  {
    hide MandateDigest, CandidateDigest, ExecutionCommitment;
  }

  // Lifecycle rows in which the bound module and adapter are active.
  function InService(b: Binding): (string, string, int) -> Option<Lifecycle> {
    (kind, name, version) => Some(Lifecycle("ACTIVE", if kind == "MODULE" then b.moduleRef.digest else b.adapter.digest))
  }

  // A call that recorded the attempt it signed.
  ghost predicate OnRecord(c: Config, w: World) {
    && |w.runners| == 1 && w.runners[0].Recorded? && InStep(w.records, w.runners[0]) && Mine(w.ledger, c.signer.adapter.digest, w.runners[0].id)
    && exists g :: g in w.signatures && g.id == w.runners[0].id
  }

  // Sign and record.
  lemma SignsAndRecords(c: Config, w: World, market: Market) returns (signed: World, recorded: World)
    requires Reviewed(market) && c.binding.adapter == c.signer.adapter && Ripe(c, w, market)
    ensures Next(c, w, signed) && Next(c, signed, recorded) && OnRecord(c, recorded)
  {
    hide LedgerMoves, BuildGateArtifact, VerifyAdmitted, Admits, Constructs, SlotScope, AccountLocalId, Reviewed;
    var terms := TermsOf(c.signer, market);
    var artifact := BuildGateArtifact(SourceOf(c.signer), terms);
    var id := AdmissionOf(c.signer, c.binding.moduleRef, artifact).attempt;
    CustodyAgrees(c, w.ledger, market);
    var g := Signature(id, artifact);
    signed := At(w, 0, Signed(id)).(signatures := w.signatures + {g});
    assert Signs(c, w, signed, 0);
    hide Signs;
    assert RunnerStep(c, w, signed, 0);
    recorded := At(signed, 0, Recorded(id)).(records := map[id := ARTIFACT_ISSUED]);
    assert Opens(signed, recorded, 0);
    assert RunnerStep(c, signed, recorded, 0);
    assert g in recorded.signatures;
  }

  // For every signer with addresses on a 64-bit chain and every reviewed market, a run signs and records an attempt.
  lemma SomeRunRecords(c: Config, principal: Party, market: Market) returns (trace: seq<World>)
    requires c.rules == AcceptAll() && Addressed(c.signer) && c.binding.adapter == c.signer.adapter && Reviewed(market)
    ensures Run(c, principal, trace) && OnRecord(c, trace[|trace| - 1])
  {
    var before := Begins(c, principal);
    hide Run, Open, Reviewed, Addressed, Next, Ripe, OnRecord;
    var ready, admitted := ConstructsAndAdmits(c, principal, before[|before| - 1], market);
    before := ExtendsTwice(c, principal, before, ready, admitted);
    var signed, recorded := SignsAndRecords(c, admitted, market);
    trace := ExtendsTwice(c, principal, before, signed, recorded);
  }

  // And when recovery comes in between, the run goes on to hand over an attempt whose outcome is recorded as unknown in
  // that and every later world.
  lemma SomeRunSendsUnknown(c: Config, principal: Party, market: Market) returns (trace: seq<World>, id: L.AttemptId)
    requires c.rules == AcceptAll() && Addressed(c.signer) && c.binding.adapter == c.signer.adapter && Reviewed(market)
    ensures Run(c, principal, trace) && |trace| >= 2
    ensures id in trace[|trace| - 1].broadcast && !SendsRecorded(trace[|trace| - 2], trace[|trace| - 1])
    ensures id in trace[|trace| - 1].records && trace[|trace| - 1].records[id] == OUTCOME_UNKNOWN
    ensures forall more: seq<World>, k :: Run(c, principal, trace + more) && |trace| <= k < |trace| + |more| ==>
              id in (trace + more)[k].records && (trace + more)[k].records[id] == OUTCOME_UNKNOWN
  {
    hide Reviewed, Addressed, InStep, Mine, NextAtRest, SendsRecorded, Broadcasts;
    var start := SomeRunRecords(c, principal, market);
    var w := start[|start| - 1];
    id := w.runners[0].id;
    var rest := RecoveryInFlight(c, principal, start, 0);
    var recovered := start + [Recovering(c, w, id)];
    trace := recovered + rest;
    hide Run;
    forall more: seq<World>, k | Run(c, principal, trace + more) && |trace| <= k < |trace| + |more|
      ensures id in (trace + more)[k].records && (trace + more)[k].records[id] == OUTCOME_UNKNOWN
    {
      UnknownForGood(c, principal, trace, more, id);
    }
  }
}
