// From an admitted attempt to a submitted call: the issuance journal, custody's own check, the signer's steps and
// its recovery pass (packages/ledger-sqlite/src/journal.ts; packages/evm-robinhood/src/{custody,issuance,signer}.ts).
module Issuance {
  import opened Common
  import opened Core
  import opened Market
  import opened Gate
  import FixedPoint
  import L = Ledger

  // ---- The journal -----------------------------------------------------------------------------

  datatype IssuanceState =
    | ARTIFACT_ISSUED | SUBMISSION_SENT | SUBMISSION_ACKNOWLEDGED | SUBMISSION_REJECTED | OUTCOME_UNKNOWN

  // The closed table: nothing leaves the last three, and nothing returns to the first two.
  predicate MayFollow(current: IssuanceState, to: IssuanceState) {
    match current
    case ARTIFACT_ISSUED => to.SUBMISSION_SENT? || to.OUTCOME_UNKNOWN?
    case SUBMISSION_SENT => to.SUBMISSION_ACKNOWLEDGED? || to.SUBMISSION_REJECTED? || to.OUTCOME_UNKNOWN?
    case _ => false
  }

  // The five moves there are.
  predicate IsMove(current: IssuanceState, to: IssuanceState) {
    (current, to) in {
      (ARTIFACT_ISSUED, SUBMISSION_SENT), (ARTIFACT_ISSUED, OUTCOME_UNKNOWN), (SUBMISSION_SENT, SUBMISSION_ACKNOWLEDGED),
      (SUBMISSION_SENT, SUBMISSION_REJECTED), (SUBMISSION_SENT, OUTCOME_UNKNOWN)}
  }

  predicate InFlight(s: IssuanceState) {
    s.ARTIFACT_ISSUED? || s.SUBMISSION_SENT?
  }

  type Records = map<L.AttemptId, IssuanceState>

  // Opening needs a committed attempt and no earlier record.
  function Opened(ledger: L.State, records: Records, id: L.AttemptId, state: IssuanceState): Result<Records> {
    if id !in ledger.attempts then Refused("ATTEMPT_NOT_ADMITTED")
    else if id in records then Refused("ALREADY_RECORDED")
    else Ok(records[id := state])
  }

  function Moved(records: Records, id: L.AttemptId, to: IssuanceState): Result<Records> {
    if id !in records then Refused("NOT_RECORDED")
    else if !MayFollow(records[id], to) then Refused("TRANSITION_FORBIDDEN")
    else Ok(records[id := to])
  }

  function OrElse(r: Result<Records>, records: Records): Records {
    if r.Ok? then r.value else records
  }

  class IssuanceJournal {
    var records: Records

    constructor ()
      ensures records == map[]
    {
      records := map[];
    }

    method Open(ledger: L.State, id: L.AttemptId, state: IssuanceState) returns (done: bool)
      modifies this
      ensures done <==> Opened(ledger, old(records), id, state).Ok?
      ensures records == OrElse(Opened(ledger, old(records), id, state), old(records))
      ensures done <==> id in ledger.attempts && id !in old(records)
      ensures records == if done then old(records)[id := state] else old(records)
    {
      if id !in ledger.attempts || id in records {
        return false;
      }
      records := records[id := state];
      done := true;
    }

    method Transition(id: L.AttemptId, to: IssuanceState) returns (done: bool)
      modifies this
      ensures done <==> Moved(old(records), id, to).Ok?
      ensures records == OrElse(Moved(old(records), id, to), old(records))
      ensures done <==> id in old(records) && IsMove(old(records)[id], to)
      ensures records == if done then old(records)[id := to] else old(records)
    {
      if id !in records || !MayFollow(records[id], to) {
        return false;
      }
      records := records[id := to];
      done := true;
    }
  }

  // ---- Slots -----------------------------------------------------------------------------------

  function Highest(attempts: seq<L.Attempt>, scope: string): (h: int)
    ensures h >= 0
  {
    if attempts == [] then 0
    else
      var before, last := Highest(attempts[..|attempts| - 1], scope), attempts[|attempts| - 1].admission.slot;
      if last.Some? && last.value.scope == scope && last.value.sequence > before then last.value.sequence else before
  }

  // A slot no listed attempt has, found in one pass.
  method NextSlot(attempts: seq<L.Attempt>, scope: string) returns (next: int)
    ensures next == Highest(attempts, scope) + 1
    ensures forall i :: 0 <= i < |attempts| ==> attempts[i].admission.slot != Some(L.Slot(scope, next))
    ensures next == 1 || exists i :: 0 <= i < |attempts| && attempts[i].admission.slot == Some(L.Slot(scope, next - 1))
    ensures forall i, n :: 0 <= i < |attempts| && attempts[i].admission.slot == Some(L.Slot(scope, n)) ==> n < next
  {
    var high := 0;
    var i := 0;
    while i < |attempts|
      invariant 0 <= i <= |attempts|
      invariant high == Highest(attempts[..i], scope)
      invariant forall k :: 0 <= k < i ==>
                  attempts[k].admission.slot.Some? && attempts[k].admission.slot.value.scope == scope
                  ==> attempts[k].admission.slot.value.sequence <= high
      invariant high == 0 || exists k :: 0 <= k < i && attempts[k].admission.slot == Some(L.Slot(scope, high))
    {
      assert attempts[..i + 1][..i] == attempts[..i];
      var slot := attempts[i].admission.slot;
      if slot.Some? && slot.value.scope == scope && slot.value.sequence > high {
        high := slot.value.sequence;
      }
      i := i + 1;
    }
    assert attempts[..i] == attempts;
    next := high + 1;
  }

  // ---- Custody ---------------------------------------------------------------------------------

  const ARTIFACT_KIND: string := "evm.gate-execution-commitment"

  datatype Claim = Claim(attempt: L.AttemptId, reservation: L.ReservationId, generation: int, action: Digest)

  datatype Lifecycle = Lifecycle(status: string, digest: Bytes)

  // What custody reads for itself: the committed ledger, the journal, the lifecycle rows and its clock.
  datatype View = View(ledger: L.State, records: Records, lifecycle: (string, string, int) -> Option<Lifecycle>, now: int)

  datatype Binding = Binding(moduleRef: ModuleRef, adapter: AdapterRef)

  function LifecycleRefusal(view: View, kind: string, name: string, version: int, digest: Bytes): Option<string> {
    match view.lifecycle(kind, name, version)
    case None => Some(kind + "_LIFECYCLE_UNKNOWN")
    case Some(row) =>
      if row.digest != digest then Some(kind + "_LIFECYCLE_OTHER_DIGEST")
      else if row.status != "ACTIVE" && row.status != "RETIRING" then Some(kind + "_" + row.status)
      else None
  }

  // Custody's own idea of the source: identity from the admission, times from the artifact itself.
  function AttemptSource(a: L.Admission, artifact: GateArtifact): Source {
    Source(a.authorization, artifact.candidate.evaluationStateDigest, a.reservation, a.generation, a.adapter,
      artifact.mandate.createdAt, artifact.mandate.expiresAt)
  }

  // Why the principal key must not be used, or None.
  function VerifyAdmitted(view: View, binding: Binding, principal: string, artifact: GateArtifact, terms: ArtifactTerms, claim: Claim)
    : Option<string>
    requires Reviewed(terms.market)
  {
    if claim.attempt !in view.ledger.attempts then Some("ATTEMPT_NOT_ADMITTED")
    else
      var a := view.ledger.attempts[claim.attempt].admission;
      if a.moduleRef.digest != binding.moduleRef.digest || a.moduleRef.moduleId != binding.moduleRef.moduleId
         || a.moduleRef.version != binding.moduleRef.version
      then Some("MODULE_NOT_SERVED")
      else if a.adapter != binding.adapter then Some("ADAPTER_NOT_SERVED")
      else if a.reservation != claim.reservation || a.generation != claim.generation || a.action != claim.action
      then Some("RESERVATION_MISMATCH")
      else if a.venueAccount.localId != AccountLocalId(terms.gate.chainId, principal) then Some("ACCOUNT_MISMATCH")
      else if terms.principal != principal || artifact.mandate.principal != principal then Some("PRINCIPAL_NOT_SERVED")
      else if CheckGateArtifact(artifact, AttemptSource(a, artifact), terms).Some? then Some("ARTIFACT_INVALID")
      else if a.artifact != L.Artifact(ARTIFACT_KIND, artifact.commitment) then Some("ARTIFACT_NOT_ADMITTED")
      else if a.slot != Some(L.Slot(SlotScope(terms.gate.chainId, terms.gate.gate, principal), artifact.mandate.nonce))
      then Some("SLOT_MISMATCH")
      else if view.now >= a.validUntil || artifact.terms.deadline >= a.validUntil then Some("ATTEMPT_EXPIRED")
      else if a.reservation !in view.ledger.reservations || view.ledger.reservations[a.reservation].status != L.ACTIVE
      then Some("RESERVATION_CLOSED")
      else if claim.attempt in view.records then Some("ATTEMPT_ALREADY_ISSUED")
      else
        var m := LifecycleRefusal(view, "MODULE", binding.moduleRef.moduleId, binding.moduleRef.version, binding.moduleRef.digest);
        if m.Some? then m
        else LifecycleRefusal(view, "ADAPTER", binding.adapter.adapterId, binding.adapter.version, binding.adapter.digest)
  }

  // A lifecycle row of exactly this version and digest, in service.
  predicate InService(view: View, kind: string, name: string, version: int, digest: Bytes) {
    var row := view.lifecycle(kind, name, version);
    row.Some? && row.value.digest == digest && row.value.status in {"ACTIVE", "RETIRING"}
  }

  // All that custody asks before it signs: a committed attempt of the module and adapter it serves, restated by the claim,
  // of its own principal's account; the exact artifact and slot that attempt was admitted for; neither over; its
  // reservation open, no record of it yet, module and adapter in service.
  ghost predicate Signable(view: View, binding: Binding, principal: string, artifact: GateArtifact, terms: ArtifactTerms, claim: Claim)
    requires Reviewed(terms.market)
  {
    && claim.attempt in view.ledger.attempts
    && var a := view.ledger.attempts[claim.attempt].admission;
       && a.moduleRef.digest == binding.moduleRef.digest && a.moduleRef.moduleId == binding.moduleRef.moduleId
       && a.moduleRef.version == binding.moduleRef.version && a.adapter == binding.adapter
       && a.reservation == claim.reservation && a.generation == claim.generation && a.action == claim.action
       && a.venueAccount.localId == AccountLocalId(terms.gate.chainId, principal)
       && terms.principal == principal && artifact.mandate.principal == principal
       && CheckGateArtifact(artifact, Source(a.authorization, artifact.candidate.evaluationStateDigest, a.reservation, a.generation, a.adapter,
                                             artifact.mandate.createdAt, artifact.mandate.expiresAt), terms).None?
       && a.artifact.kind == ARTIFACT_KIND && a.artifact.id == artifact.commitment
       && a.slot == Some(L.Slot(SlotScope(terms.gate.chainId, terms.gate.gate, principal), artifact.mandate.nonce))
       && view.now < a.validUntil && artifact.terms.deadline < a.validUntil
       && a.reservation in view.ledger.reservations && view.ledger.reservations[a.reservation].status.ACTIVE?
       && claim.attempt !in view.records
       && InService(view, "MODULE", binding.moduleRef.moduleId, binding.moduleRef.version, binding.moduleRef.digest)
       && InService(view, "ADAPTER", binding.adapter.adapterId, binding.adapter.version, binding.adapter.digest)
  }

  lemma SignsExactly(view: View, binding: Binding, principal: string, artifact: GateArtifact, terms: ArtifactTerms, claim: Claim)
    requires Reviewed(terms.market)
    ensures VerifyAdmitted(view, binding, principal, artifact, terms, claim).None? <==> Signable(view, binding, principal, artifact, terms, claim)
  {
    hide CheckGateArtifact, SlotScope, AccountLocalId;
  }

  // An artifact whose digests are those of its contents.
  predicate Sealed(a: GateArtifact) {
    && a.mandateDigest == MandateDigest(a.mandate)
    && a.candidateDigest == CandidateDigest(a.candidate)
    && a.commitment == ExecutionCommitment(a.mandateDigest, a.candidateDigest, a.terms)
  }

  // The admitted attempt commits exactly this artifact, in its own generation's name and slot.
  predicate Commits(a: L.Admission, artifact: GateArtifact) {
    && Sealed(artifact)
    && a.artifact == L.Artifact(ARTIFACT_KIND, artifact.commitment)
    && artifact.mandate.mandateId == GateMandateId(a.authorization, a.reservation, a.generation, a.adapter)
    && a.slot.Some? && a.slot.value.sequence == artifact.mandate.nonce
    && artifact.terms.deadline < a.validUntil
  }

  // What a signature rests on: the committed attempt, unexpired and unrecorded, on an open reservation,
  // and a debit limited to the venue's exact quote, paid to the principal itself.
  lemma VerifiedMeans(view: View, binding: Binding, principal: string, artifact: GateArtifact, terms: ArtifactTerms, claim: Claim)
    requires Reviewed(terms.market) && VerifyAdmitted(view, binding, principal, artifact, terms, claim) == None
    ensures claim.attempt in view.ledger.attempts && claim.attempt !in view.records
    ensures var a := view.ledger.attempts[claim.attempt].admission;
            && Commits(a, artifact)
            && view.now < a.validUntil
            && a.reservation in view.ledger.reservations && view.ledger.reservations[a.reservation].status.ACTIVE?
    ensures artifact.terms.recipient == artifact.mandate.principal == principal
    ensures artifact.terms.fundingLimit == artifact.mandate.economicLimit.atoms == BuyCost(terms.market, terms.quantity)
  {
    hide BuildGateArtifact, MandateDigest, CandidateDigest, ExecutionCommitment, GateMandateId, BuyCost, SlotScope, AccountLocalId,
      LifecycleRefusal;
  }

  lemma SameCommitment(x: GateArtifact, y: GateArtifact)
    requires Sealed(x) && Sealed(y) && x.commitment == y.commitment
    ensures x.mandate == y.mandate && x.candidate == y.candidate && x.terms == y.terms
  {
    CommitmentTells(x.mandateDigest, x.candidateDigest, x.terms, y.mandateDigest, y.candidateDigest, y.terms);
    hide ExecutionCommitment, MandateDigest, CandidateDigest;
    MandateTells(x.mandate, y.mandate);
    CandidateTells(x.candidate, y.candidate);
  }

  // Two texts split at their first colon.
  lemma SplitAtColon(d: string, u: string, e: string, v: string)
    requires ':' !in d && ':' !in e && d + ":" + u == e + ":" + v
    ensures d == e && u == v
  {
    var s, t := d + ":" + u, e + ":" + v;
    assert s[|d|] == ':' && t[|e|] == ':';
    assert forall i :: 0 <= i < |d| ==> s[i] == d[i] && d[i] in d;
    assert forall i :: 0 <= i < |e| ==> t[i] == e[i] && e[i] in e;
    assert |d| == |e|;
    assert d == s[..|d|] && e == t[..|e|] && u == s[|d| + 1..] && v == t[|e| + 1..];
  }

  // A slot scope names its chain and its gate.
  lemma ScopeTells(chain: nat, gate: string, other: nat, otherGate: string, principal: string)
    requires SlotScope(chain, gate, principal) == SlotScope(other, otherGate, principal)
    ensures chain == other && gate == otherGate
  {
    var d, e := FixedPoint.Digits(chain), FixedPoint.Digits(other);
    FixedPoint.DigitsRead(chain);
    FixedPoint.DigitsRead(other);
    hide FixedPoint.Digits, FixedPoint.Value;
    var s, tail := SlotScope(chain, gate, principal), ":principal:" + principal;
    var u, v := "gate:" + gate + tail, "gate:" + otherGate + tail;
    assert s == "evm:" + (d + ":" + u) && s == "evm:" + (e + ":" + v);
    assert s[4..] == d + ":" + u && s[4..] == e + ":" + v;
    SplitAtColon(d, u, e, v);
    assert |gate| == |otherGate| && gate == u[5..5 + |gate|] && otherGate == v[5..5 + |gate|];
  }

  // Whoever asks, whatever it shows and whenever: over one attempt custody signs for one mandate, candidate and terms, on
  // one chain and gate. The domain's name and version, which its check does not read, are all that can differ.
  lemma CustodySignsOne(view: View, binding: Binding, principal: string, x: GateArtifact, s: ArtifactTerms, claim: Claim,
                        other: View, y: GateArtifact, t: ArtifactTerms, again: Claim)
    requires Reviewed(s.market) && VerifyAdmitted(view, binding, principal, x, s, claim) == None
    requires Reviewed(t.market) && VerifyAdmitted(other, binding, principal, y, t, again) == None
    requires claim.attempt in view.ledger.attempts && again.attempt in other.ledger.attempts
    requires view.ledger.attempts[claim.attempt].admission == other.ledger.attempts[again.attempt].admission
    ensures x == y.(domain := x.domain)
    ensures x.domain.chainId == y.domain.chainId && x.domain.contract == y.domain.contract
  {
    VerifiedMeans(view, binding, principal, x, s, claim);
    VerifiedMeans(other, binding, principal, y, t, again);
    SameCommitment(x, y);
    DomainOf(view, binding, principal, x, s, claim);
    DomainOf(other, binding, principal, y, t, again);
    hide VerifyAdmitted, MandateDigest, CandidateDigest, ExecutionCommitment, GateMandateId, SlotScope, BuyCost;
    ScopeTells(s.gate.chainId, s.gate.gate, t.gate.chainId, t.gate.gate, principal);
  }

  lemma DomainOf(view: View, binding: Binding, principal: string, x: GateArtifact, s: ArtifactTerms, claim: Claim)
    requires Reviewed(s.market) && VerifyAdmitted(view, binding, principal, x, s, claim) == None
    ensures claim.attempt in view.ledger.attempts
    ensures x.domain.chainId == s.gate.chainId && x.domain.contract == s.gate.gate
    ensures var slot := view.ledger.attempts[claim.attempt].admission.slot;
            slot.Some? && slot.value.scope == SlotScope(s.gate.chainId, s.gate.gate, principal)
  {
    hide BuildGateArtifact, MandateDigest, CandidateDigest, ExecutionCommitment, GateMandateId, BuyCost, SlotScope, AccountLocalId,
      LifecycleRefusal;
  }

  // ---- Submission ------------------------------------------------------------------------------

  datatype Receipt = MinedSuccess | MinedReverted

  // What the chain answers: a revert before broadcast, no broadcast, no receipt, or one.
  datatype Chain = PreflightReverted | NotSent | ReceiptUnreadable | Mined(receipt: Receipt)

  datatype Outcome = JournalRefused | PreflightRefused | Issued(state: IssuanceState)

  function Final(chain: Chain): IssuanceState {
    match chain
    case Mined(MinedSuccess) => SUBMISSION_ACKNOWLEDGED
    case Mined(MinedReverted) => SUBMISSION_REJECTED
    case _ => OUTCOME_UNKNOWN
  }

  function Reported(chain: Chain): Outcome {
    if chain.PreflightReverted? then PreflightRefused else Issued(Final(chain))
  }

  class GateSigner {
    const config: SignerConfig
    const journal: IssuanceJournal
    // Attempts whose call was handed to the chain.
    var broadcast: set<L.AttemptId>

    constructor (config: SignerConfig, journal: IssuanceJournal)
      ensures this.config == config && this.journal == journal && broadcast == {}
    {
      this.config := config;
      this.journal := journal;
      broadcast := {};
    }

    // Journal, preflight, submit. With nothing else at work on the attempt, the journal ends at what is reported,
    // and an attempt already recorded is neither touched nor sent.
    method Submit(ledger: L.State, id: L.AttemptId, chain: Chain) returns (outcome: Outcome)
      modifies this`broadcast, journal
      ensures Opened(ledger, old(journal.records), id, ARTIFACT_ISSUED).Refused? ==>
                outcome == JournalRefused && journal.records == old(journal.records) && broadcast == old(broadcast)
      ensures Opened(ledger, old(journal.records), id, ARTIFACT_ISSUED).Ok? ==>
                && outcome == Reported(chain)
                && journal.records == old(journal.records)[id := Final(chain)]
                && broadcast == old(broadcast) + (if chain.PreflightReverted? then {} else {id})
      ensures outcome.JournalRefused? <==> id !in ledger.attempts || id in old(journal.records)
      ensures !outcome.JournalRefused? ==>
                && id in journal.records && journal.records == old(journal.records)[id := journal.records[id]]
                && (journal.records[id].SUBMISSION_ACKNOWLEDGED? <==> chain == Mined(MinedSuccess))
                && (journal.records[id].SUBMISSION_REJECTED? <==> chain == Mined(MinedReverted))
                && (journal.records[id].OUTCOME_UNKNOWN? <==> chain in {PreflightReverted, NotSent, ReceiptUnreadable})
                && outcome == if chain.PreflightReverted? then PreflightRefused else Issued(journal.records[id])
    {
      var first := journal.Open(ledger, id, ARTIFACT_ISSUED);
      if !first {
        return JournalRefused;
      }
      if chain.PreflightReverted? {
        var _ := journal.Transition(id, OUTCOME_UNKNOWN);
        return PreflightRefused;
      }
      var _ := journal.Transition(id, SUBMISSION_SENT);
      broadcast := broadcast + {id};
      if chain.NotSent? || chain.ReceiptUnreadable? {
        var _ := journal.Transition(id, OUTCOME_UNKNOWN);
        return Issued(OUTCOME_UNKNOWN);
      }
      var state := if chain.receipt.MinedSuccess? then SUBMISSION_ACKNOWLEDGED else SUBMISSION_REJECTED;
      var _ := journal.Transition(id, state);
      outcome := Issued(state);
    }

    // After a restart: every attempt of this adapter that is unrecorded or in flight becomes OUTCOME_UNKNOWN.
    method Recover(ledger: L.State, listing: seq<L.AttemptId>) returns (unrecorded: nat, interrupted: nat)
      requires forall id :: id in listing <==> id in ledger.attempts
      modifies journal
      ensures journal.records == Recovered(ledger, old(journal.records), config.adapter.digest, listing)
      ensures unrecorded == Unrecorded(ledger, old(journal.records), config.adapter.digest, listing)
      ensures interrupted == Interrupted(ledger, old(journal.records), config.adapter.digest, listing)
    {
      unrecorded, interrupted := 0, 0;
      var i := 0;
      while i < |listing|
        invariant 0 <= i <= |listing|
        invariant journal.records == Recovered(ledger, old(journal.records), config.adapter.digest, listing[..i])
        invariant unrecorded == Unrecorded(ledger, old(journal.records), config.adapter.digest, listing[..i])
        invariant interrupted == Interrupted(ledger, old(journal.records), config.adapter.digest, listing[..i])
      {
        assert listing[..i + 1][..i] == listing[..i];
        var id := listing[i];
        assert id in ledger.attempts;
        if ledger.attempts[id].admission.adapter.digest == config.adapter.digest {
          if id !in journal.records {
            var done := journal.Open(ledger, id, OUTCOME_UNKNOWN);
            if done {
              unrecorded := unrecorded + 1;
            }
          } else if InFlight(journal.records[id]) {
            var done := journal.Transition(id, OUTCOME_UNKNOWN);
            if done {
              interrupted := interrupted + 1;
            }
          }
        }
        i := i + 1;
      }
      assert listing[..i] == listing;
    }
  }

  // ---- Recovery --------------------------------------------------------------------------------

  predicate Mine(ledger: L.State, digest: Bytes, id: L.AttemptId) {
    id in ledger.attempts && ledger.attempts[id].admission.adapter.digest == digest
  }

  predicate Unsettled(records: Records, id: L.AttemptId) {
    id !in records || InFlight(records[id])
  }

  function RecoveredOne(ledger: L.State, records: Records, digest: Bytes, id: L.AttemptId): Records {
    if Mine(ledger, digest, id) && Unsettled(records, id) then records[id := OUTCOME_UNKNOWN] else records
  }

  function Recovered(ledger: L.State, records: Records, digest: Bytes, listing: seq<L.AttemptId>): Records
    decreases |listing|
  {
    if listing == [] then records
    else
      RecoveredOne(ledger, Recovered(ledger, records, digest, listing[..|listing| - 1]), digest, listing[|listing| - 1])
  }

  function Unrecorded(ledger: L.State, records: Records, digest: Bytes, listing: seq<L.AttemptId>): nat
    decreases |listing|
  {
    if listing == [] then 0
    else
      var front, last := listing[..|listing| - 1], listing[|listing| - 1];
      Unrecorded(ledger, records, digest, front)
      + if Mine(ledger, digest, last) && last !in Recovered(ledger, records, digest, front) then 1 else 0
  }

  function Interrupted(ledger: L.State, records: Records, digest: Bytes, listing: seq<L.AttemptId>): nat
    decreases |listing|
  {
    if listing == [] then 0
    else
      var front, last := listing[..|listing| - 1], listing[|listing| - 1];
      var before := Recovered(ledger, records, digest, front);
      Interrupted(ledger, records, digest, front)
      + if Mine(ledger, digest, last) && last in before && InFlight(before[last]) then 1 else 0
  }

  // Record by record: this adapter's unsettled attempts become unknown, and nothing else changes.
  lemma {:induction false} RecoveredIs(ledger: L.State, records: Records, digest: Bytes, listing: seq<L.AttemptId>, id: L.AttemptId)
    ensures var after := Recovered(ledger, records, digest, listing);
            if id in listing && Mine(ledger, digest, id) && Unsettled(records, id)
            then id in after && after[id] == OUTCOME_UNKNOWN
            else (id in after <==> id in records) && (id in records ==> after[id] == records[id])
    decreases |listing|
  {
    if listing != [] {
      var front, last := listing[..|listing| - 1], listing[|listing| - 1];
      RecoveredIs(ledger, records, digest, front, id);
      assert id in listing <==> id in front || id == last;
    }
  }

  // After recovery no attempt of this adapter is unrecorded or in flight, so custody signs none of them.
  lemma NothingUnsettled(ledger: L.State, records: Records, digest: Bytes, listing: seq<L.AttemptId>, id: L.AttemptId)
    requires (forall x :: x in listing <==> x in ledger.attempts) && Mine(ledger, digest, id)
    ensures !Unsettled(Recovered(ledger, records, digest, listing), id)
  {
    RecoveredIs(ledger, records, digest, listing, id);
  }

  // A second recovery finds nothing to do.
  lemma {:induction false} RecoverTwice(ledger: L.State, records: Records, digest: Bytes, listing: seq<L.AttemptId>, again: seq<L.AttemptId>)
    requires (forall x :: x in listing <==> x in ledger.attempts) && (forall x :: x in again ==> x in ledger.attempts)
    ensures var once := Recovered(ledger, records, digest, listing);
            && Recovered(ledger, once, digest, again) == once
            && Unrecorded(ledger, once, digest, again) == 0 && Interrupted(ledger, once, digest, again) == 0
    decreases |again|
  {
    if again != [] {
      var front, last := again[..|again| - 1], again[|again| - 1];
      RecoverTwice(ledger, records, digest, listing, front);
      if Mine(ledger, digest, last) {
        NothingUnsettled(ledger, records, digest, listing, last);
      }
    }
  }

  // The listing order does not matter either.
  lemma RecoveryIgnoresOrder(ledger: L.State, records: Records, digest: Bytes, xs: seq<L.AttemptId>, ys: seq<L.AttemptId>)
    requires forall x :: x in xs <==> x in ys
    ensures Recovered(ledger, records, digest, xs) == Recovered(ledger, records, digest, ys)
  {
    var a, b := Recovered(ledger, records, digest, xs), Recovered(ledger, records, digest, ys);
    forall id ensures (id in a <==> id in b) && (id in a ==> a[id] == b[id]) {
      RecoveredIs(ledger, records, digest, xs, id);
      RecoveredIs(ledger, records, digest, ys, id);
    }
  }

  predicate Distinct(listing: seq<L.AttemptId>) {
    forall i, j :: 0 <= i < j < |listing| ==> listing[i] != listing[j]
  }

  // The listed attempts among those that satisfy a condition.
  function Listed(listing: seq<L.AttemptId>, p: L.AttemptId -> bool): set<L.AttemptId> {
    set id | id in listing && p(id)
  }

  lemma ListedSnoc(front: seq<L.AttemptId>, last: L.AttemptId, p: L.AttemptId -> bool)
    requires last !in front
    ensures |Listed(front + [last], p)| == |Listed(front, p)| + if p(last) then 1 else 0
  {
    assert Listed(front + [last], p) == Listed(front, p) + if p(last) then {last} else {};
  }

  ghost function NotRecorded(ledger: L.State, records: Records, digest: Bytes): L.AttemptId -> bool {
    id => Mine(ledger, digest, id) && id !in records
  }

  ghost function WasInFlight(ledger: L.State, records: Records, digest: Bytes): L.AttemptId -> bool {
    id => Mine(ledger, digest, id) && id in records && InFlight(records[id])
  }

  // What the pass counts: this adapter's attempts without a record, and those whose record was in flight, each once.
  lemma {:induction false} CountsAre(ledger: L.State, records: Records, digest: Bytes, listing: seq<L.AttemptId>)
    requires Distinct(listing)
    ensures Unrecorded(ledger, records, digest, listing) == |Listed(listing, NotRecorded(ledger, records, digest))|
    ensures Interrupted(ledger, records, digest, listing) == |Listed(listing, WasInFlight(ledger, records, digest))|
    decreases |listing|
  {
    hide Mine, Recovered, InFlight, Listed;
    if listing == [] {
      NoneListed(NotRecorded(ledger, records, digest));
      NoneListed(WasInFlight(ledger, records, digest));
    } else {
      var front, last := listing[..|listing| - 1], listing[|listing| - 1];
      assert front + [last] == listing;
      CountsAre(ledger, records, digest, front);
      NotYet(ledger, records, digest, front, last);
      ListedSnoc(front, last, NotRecorded(ledger, records, digest));
      ListedSnoc(front, last, WasInFlight(ledger, records, digest));
    }
  }

  lemma NoneListed(p: L.AttemptId -> bool)
    ensures Listed([], p) == {}
  {
  }

  // The rest of the pass has not touched an attempt it did not list.
  lemma NotYet(ledger: L.State, records: Records, digest: Bytes, front: seq<L.AttemptId>, last: L.AttemptId)
    requires Distinct(front + [last])
    ensures var before := Recovered(ledger, records, digest, front);
            last !in front && (last in before <==> last in records) && (last in records ==> before[last] == records[last])
  {
    RecoveredIs(ledger, records, digest, front, last);
    assert forall i :: 0 <= i < |front| ==> (front + [last])[i] == front[i] && (front + [last])[|front|] == last;
  }
}
