// The control engine over the compare-and-swap ledger (packages/control/src/engine.ts:201-477,
// packages/ledger/src/memory-store.ts:58-119). Other callers' commits are interleaved explicitly: between any two
// awaits of a call, an arbitrary sequence of compare-and-swap calls by others may run.
module Engine {
  import opened Common
  import opened Core
  import opened Decisions
  import opened StateBindings
  import opened PreExecution
  import opened DecisionMeaning
  import Acceptance
  import Charging
  import L = Ledger
  import LI = LedgerInvariant
  import LS = LedgerSafety

  // ---- The store -------------------------------------------------------------------------------

  datatype CommitResult = COMMITTED(state: L.State) | CONFLICTED | REFUSED_BY_LEDGER(code: string)

  datatype Call = Call(version: nat, head: L.Head, events: seq<L.Event>)

  // What one compare-and-swap appends: its batch when version and head match and the reducer accepts it, or nothing.
  function Appended(s: L.State, c: Call, rules: L.Rules): seq<seq<L.Event>> {
    if s.version == c.version && s.head == c.head && L.ApplyBatch(s, c.events, rules).Ok? then [c.events] else []
  }

  class LedgerStore {
    const principal: Party
    const rules: L.Rules
    var state: L.State
    var batches: seq<seq<L.Event>>

    // The kept state is the fold of the log.
    ghost predicate Valid()
      reads this
    {
      L.Replay(principal, batches, rules) == Ok(state)
    }

    constructor (principal: Party, rules: L.Rules)
      ensures Valid() && batches == [] && this.principal == principal && this.rules == rules
    {
      this.principal := principal;
      this.rules := rules;
      state := L.EmptyState(principal);
      batches := [];
    }

    method Read() returns (snapshot: L.State)
      ensures snapshot == state
    {
      snapshot := state;
    }

    method CompareAndAppend(version: nat, head: L.Head, events: seq<L.Event>) returns (r: CommitResult)
      requires Valid()
      modifies this
      ensures Valid()
      ensures batches == old(batches) + Appended(old(state), Call(version, head, events), rules)
      ensures r.COMMITTED? <==> Appended(old(state), Call(version, head, events), rules) != []
      ensures r.COMMITTED? ==> r.state == state && L.ApplyBatch(old(state), events, rules) == Ok(state)
      ensures !r.COMMITTED? ==> state == old(state)
      ensures r.CONFLICTED? <==> old(state).version != version || old(state).head != head
    {
      hide L.ApplyBatch;
      var current := state;
      if current.version != version || current.head != head {
        return CONFLICTED;
      }
      var applied := L.ApplyBatch(current, events, rules);
      if applied.Refused? {
        return REFUSED_BY_LEDGER(applied.code);
      }
      ReplaySnoc(principal, batches, events, rules);
      batches := batches + [events];
      state := applied.value;
      r := COMMITTED(state);
    }

    // Other callers' compare-and-swaps, in the order they reach the store.
    method Interfere(calls: seq<Call>) returns (ghost others: seq<seq<L.Event>>)
      requires Valid()
      modifies this
      ensures Valid() && batches == old(batches) + others
      ensures others == [] ==> state == old(state)
      ensures calls == [] ==> others == []
    {
      others := [];
      var i := 0;
      while i < |calls|
        invariant 0 <= i <= |calls|
        invariant Valid() && batches == old(batches) + others
        invariant others == [] ==> state == old(state)
        invariant i == 0 ==> others == []
      {
        ghost var before := state;
        var r := CompareAndAppend(calls[i].version, calls[i].head, calls[i].events);
        others := others + Appended(before, Call(calls[i].version, calls[i].head, calls[i].events), rules);
        i := i + 1;
      }
    }
  }

  lemma ReplaySnoc(principal: Party, batches: seq<seq<L.Event>>, events: seq<L.Event>, rules: L.Rules)
    requires L.Replay(principal, batches, rules).Ok?
    ensures L.Replay(principal, batches + [events], rules) == L.ApplyBatch(L.Replay(principal, batches, rules).value, events, rules)
  {
    hide L.ApplyBatch;
    var more := batches + [events];
    assert more[..|more| - 1] == batches && more[|more| - 1] == events;
  }

  // A compare-and-swap that is not a conflict meets exactly the state the caller read: heads never recur.
  lemma SameHeadSameState(principal: Party, a: seq<seq<L.Event>>, b: seq<seq<L.Event>>, rules: L.Rules)
    requires L.Replay(principal, a, rules).Ok? && L.Replay(principal, b, rules).Ok?
    requires L.Replay(principal, a, rules).value.head == L.Replay(principal, b, rules).value.head
    ensures L.Replay(principal, a, rules) == L.Replay(principal, b, rules)
  {
    LS.HeadDeterminesHistory(principal, principal, a, b, rules);
  }

  // ---- One attempt of each operation, as a function of the snapshot ----------------------------

  // Either the call is over, or it proposes one event.
  datatype Step<T> = Done(result: T) | Propose(event: L.Event, result: T)

  datatype Authorized = AUTHORIZED(decision: Decision) | AUTHORIZATION_REFUSED(code: string) | AUTHORIZATION_CONFLICT

  function AuthorizeStep(env: Env, s: L.State, req: Request): Step<Authorized> {
    match Decide(env, s, req)
    case Refused(code) => Done(AUTHORIZATION_REFUSED(code))
    case Ok(d) =>
      if !env.decisionAdapter(req.action.adapter) then Done(AUTHORIZATION_REFUSED("ADAPTER_NOT_USABLE"))
      else Propose(d.event, AUTHORIZED(d))
  }

  datatype Closed = CLOSED(evidence: L.Evidence) | ALREADY_CLOSED | CLOSE_REFUSED(code: string) | CLOSE_CONFLICT

  predicate Unconsumed(r: L.Reservation) {
    forall i :: 0 <= i < |r.demands| ==> r.demands[i].consumed == 0
  }

  predicate AllReleased(r: L.Reservation) {
    forall i :: 0 <= i < |r.demands| ==> r.demands[i].released == r.demands[i].reserved
  }

  function EvidenceOf(r: Record, v: Revalidation): L.Evidence {
    L.NeverIssued(r.reservation, r.generation, r.id, v.id)
  }

  function CloseStep(env: Env, s: L.State, rec: Record, req: Request): Step<Closed> {
    if rec.reservation !in s.reservations then Done(CLOSE_REFUSED("RESERVATION_UNKNOWN"))
    else
      var r := s.reservations[rec.reservation];
      if r.generation != rec.generation || r.action != rec.action.id then Done(CLOSE_REFUSED("RESERVATION_UNKNOWN"))
      else if L.AttemptsOf(s, rec.reservation) != [] then Done(CLOSE_REFUSED("ATTEMPT_ADMITTED"))
      else if r.status.CLOSED? then
        if Unconsumed(r) && AllReleased(r) then Done(ALREADY_CLOSED) else Done(CLOSE_REFUSED("RESERVATION_CLOSED"))
      else if !Unconsumed(r) then Done(CLOSE_REFUSED("CONSUMPTION_RECORDED"))
      else match Revalidate(env, s, rec, req)
        case Refused(code) => Done(CLOSE_REFUSED(code))
        case Ok(v) =>
          if v.PASSED? then Done(CLOSE_REFUSED("AUTHORIZATION_STILL_VALID"))
          else
            var evidence := EvidenceOf(rec, v);
            var event := L.Event.Account(v.evaluatedAt, L.CLOSE, rec.reservation, rec.generation, evidence, LS.Remaining(r.demands));
            if L.ApplyBatch(s, [event], env.rules).Refused? then Done(CLOSE_REFUSED("CLOSE_REFUSED_BY_REDUCER"))
            else Propose(event, CLOSED(evidence))
  }

  datatype AttemptRequest = AttemptRequest(
    revalidation: Request, adapter: AdapterRef, venueAccount: Resource, artifact: L.Artifact, slot: Option<L.Slot>,
    validUntil: int, requirements: seq<Check>, results: seq<Finding>)

  datatype Admitted =
    | ADMITTED(admission: L.Admission, end: int) | EXISTING(attempt: L.AttemptId) | ATTEMPT_REFUSED(code: string) | ATTEMPT_CONFLICT

  // The engine's own three findings about the reservation.
  function OwnChecks(subject: string): seq<Check> {
    [Check(STATE_REVALIDATION, subject), Check(MODULE_TRUST, subject), Check(ADAPTER_TRUST, subject)]
  }

  function ModuleDigest(m: ModuleRef): Digest {
    Keccak([Text(m.domainId), Text(m.moduleId), Number(m.version), Raw(m.digest)])
  }

  function AdapterDigest(a: AdapterRef): Digest {
    Keccak([Text("mandate-core/v1/control/pre-execution-evidence"), Number(1), Text(a.adapterId), Number(a.version), Raw(a.digest)])
  }

  function Own(kind: Kind, subject: string, reason: string, of: Digest): Finding {
    Finding(Check(kind, subject), PASS, reason, EvidenceDigest(Check(kind, subject), [of]))
  }

  function OwnResults(subject: string, rec: Record, v: Revalidation): seq<Finding> {
    [ Own(STATE_REVALIDATION, subject, if v.PASSED? && v.refreshed then "REFRESHED" else "READMITTED", v.id),
      Own(MODULE_TRUST, subject, "ISSUABLE", ModuleDigest(rec.action.moduleRef)),
      Own(ADAPTER_TRUST, subject, "USABLE", AdapterDigest(rec.action.adapter)) ]
  }

  // `subject` is the reservation's identity as text.
  function AdmissionFor(rec: Record, areq: AttemptRequest, v: Revalidation, findings: seq<Finding>): L.Admission {
    var id := L.AttemptId(rec.reservation, rec.generation, rec.action.id, rec.action.moduleRef, rec.action.adapter, rec.executionId, 1);
    L.Admission(id, 1, rec.reservation, rec.generation, rec.action.id, rec.executionId, rec.action.moduleRef, rec.action.adapter,
                areq.venueAccount, areq.artifact, areq.slot, areq.validUntil, FindingsDigest(findings), v.id)
  }

  function AdmitStep(env: Env, s: L.State, rec: Record, areq: AttemptRequest, subject: string): Step<Admitted> {
    var prior := L.AttemptsOf(s, rec.reservation);
    if prior != [] then Done(EXISTING(prior[|prior| - 1]))
    else if areq.adapter != rec.action.adapter then Done(ATTEMPT_REFUSED("ADAPTER_MISMATCH"))
    else if !env.attemptAdapter(areq.adapter) then Done(ATTEMPT_REFUSED("ADAPTER_NOT_USABLE"))
    else if !env.issuable(rec.action.moduleRef) then Done(ATTEMPT_REFUSED("MODULE_NOT_ISSUABLE"))
    else match Revalidate(env, s, rec, areq.revalidation)
      case Refused(code) => Done(ATTEMPT_REFUSED(code))
      case Ok(v) =>
        if v.FAILED? then Done(ATTEMPT_REFUSED(v.code))
        else if areq.validUntil <= v.evaluatedAt then Done(ATTEMPT_REFUSED("ARTIFACT_ALREADY_EXPIRED"))
        else if areq.validUntil > v.validUntil then Done(ATTEMPT_REFUSED("ARTIFACT_OUTLIVES_AUTHORIZATION"))
        else match Checked(OwnChecks(subject) + areq.requirements, OwnResults(subject, rec, v), areq.results)
          case Refused(code) => Done(ATTEMPT_REFUSED(code))
          case Ok(findings) =>
            var admission := AdmissionFor(rec, areq, v, findings);
            var event := L.AdmitAttempt(v.evaluatedAt, admission);
            if L.ApplyBatch(s, [event], env.rules).Refused? then Done(ATTEMPT_REFUSED("ATTEMPT_REFUSED_BY_REDUCER"))
            else Propose(event, ADMITTED(admission, v.validUntil))
  }

  datatype Registered = REGISTERED | REGISTRATION_REFUSED(code: string) | REGISTRATION_CONFLICT

  // `derive` is the catalog's derivation of bindings and narrowing proofs for the snapshot.
  function RegisterStep(env: Env, s: L.State, derive: L.State -> Result<L.Event>): Step<Registered> {
    match derive(s)
    case Refused(code) => Done(REGISTRATION_REFUSED(code))
    case Ok(event) =>
      match L.ApplyEvent(s, event, s.version + 1, env.rules)
      case Refused(code) => Done(REGISTRATION_REFUSED(code))
      case Ok(_) => Propose(event, REGISTERED)
  }

  lemma SingleBatch(s: L.State, e: L.Event, rules: L.Rules)
    ensures L.ApplyBatch(s, [e], rules).Ok? <==> L.ApplyEvent(s, e, s.version + 1, rules).Ok? && s.version + 1 <= UINT64_MAX
    ensures L.ApplyBatch(s, [e], rules).Ok? ==>
              && var t := L.ApplyEvent(s, e, s.version + 1, rules).value;
                 L.ApplyBatch(s, [e], rules).value == t.(version := s.version + 1, head := L.Batch(s.principal, s.version + 1, s.head, [e]))
  {
    hide L.ApplyEvent;
    assert [e][1..] == [] && [e][0] == e;
    var first := L.ApplyEvent(s, e, s.version + 1, rules);
    if first.Ok? {
      assert L.ApplyEvents(first.value, [], s.version + 1, rules) == first;
    }
    assert L.ApplyEvents(s, [e], s.version + 1, rules) == first;
  }

  // ---- What each step needs ----------------------------------------------------------------------

  // A reservation is proposed exactly when a decision can be reached through a usable adapter, and its result is that decision.
  lemma AuthorizesExactly(env: Env, s: L.State, req: Request)
    requires LI.Inv(s)
    ensures AuthorizeStep(env, s, req).Propose? <==> env.decisionAdapter(req.action.adapter) && exists b :: Decidable(env, s, req, b)
    ensures AuthorizeStep(env, s, req).Propose? ==>
              && AuthorizeStep(env, s, req).result.AUTHORIZED?
              && exists b :: Decidable(env, s, req, b) && Describes(env, s, req, b, AuthorizeStep(env, s, req).result.decision)
    ensures AuthorizeStep(env, s, req).Done? ==> AuthorizeStep(env, s, req).result.AUTHORIZATION_REFUSED?
  {
    hide Decide, Decidable, Describes, LI.Inv;
    DecidesExactly(env, s, req);
  }

  // The record's reservation, its generation never attempted, open and wholly unused.
  predicate NeverUsed(s: L.State, rec: Record) {
    && rec.reservation in s.reservations
    && var r := s.reservations[rec.reservation];
       && r.generation == rec.generation && r.action == rec.action.id && r.status.ACTIVE?
       && L.AttemptsOf(s, rec.reservation) == [] && forall i :: 0 <= i < |r.demands| ==> r.demands[i].consumed == 0
  }

  ghost predicate FailsNow(env: Env, s: L.State, rec: Record, req: Request) {
    Revalidate(env, s, rec, req).Ok? && Revalidate(env, s, rec, req).value.FAILED?
  }

  ghost predicate PassesNow(env: Env, s: L.State, rec: Record, req: Request) {
    Revalidate(env, s, rec, req).Ok? && Revalidate(env, s, rec, req).value.PASSED?
  }

  // Neither the ledger's clock nor its version stands in the way.
  predicate Writable(s: L.State, at: int) {
    Acceptance.InTime(s, at) && s.version < UINT64_MAX
  }

  // The close of a reservation never used: all it holds is released, on the evidence of the failed revalidation.
  predicate ClosesUnused(s: L.State, rec: Record, failed: Revalidation, e: L.Event) {
    && e.Account? && e.at == failed.evaluatedAt && e.kind.CLOSE? && e.reservation == rec.reservation && e.generation == rec.generation
    && e.evidence == L.NeverIssued(rec.reservation, rec.generation, rec.id, failed.id)
    && rec.reservation in s.reservations && |e.amounts| == |s.reservations[rec.reservation].demands|
    && forall i :: 0 <= i < |e.amounts| ==> e.amounts[i] == s.reservations[rec.reservation].demands[i].reserved
  }

  // A close is proposed exactly of a reservation never used whose revalidation fails, when the ledger's clock and version
  // allow; while it passes, the close is refused and nothing is written.
  lemma ClosesExactly(env: Env, s: L.State, rec: Record, req: Request)
    requires LI.Inv(s)
    ensures var step := CloseStep(env, s, rec, req);
            && (step.Propose? <==> NeverUsed(s, rec) && FailsNow(env, s, rec, req)
                                   && Writable(s, req.context.evaluationTime))
            && (step.Propose? ==> ClosesUnused(s, rec, Revalidate(env, s, rec, req).value, step.event) && step.result == CLOSED(step.event.evidence)
                                  && L.ApplyBatch(s, [step.event], env.rules).Ok?)
            && (step == Done(CLOSE_REFUSED("AUTHORIZATION_STILL_VALID")) <==> NeverUsed(s, rec) && PassesNow(env, s, rec, req))
            && (step.Done? ==> !step.result.CLOSED?)
  {
    hide Revalidate, L.ApplyBatch, L.ApplyEvent, LI.NodesOk, LI.TargetsOk, LI.PolicyOk, LI.SumsOk, LI.EpochsOk, LI.LimitsOk, LI.AttemptsOk, LI.ActionsOk;
    NeverStillValid(env, s, rec, req);
    if NeverUsed(s, rec) && FailsNow(env, s, rec, req) {
      var r, v := s.reservations[rec.reservation], Revalidate(env, s, rec, req).value;
      assert LI.ReservationOk(s.targets, rec.reservation, r, s.lastAt.value);
      RevalidatesAt(env, s, rec, req);
      var event := LS.CloseOf(r, v.evaluatedAt, EvidenceOf(rec, v));
      assert event == L.Event.Account(v.evaluatedAt, L.CLOSE, rec.reservation, rec.generation, EvidenceOf(rec, v), LS.Remaining(r.demands));
      SingleBatch(s, event, env.rules);
      if Acceptance.InTime(s, v.evaluatedAt) {
        LS.CloseNeverRefuses(s, rec.reservation, v.evaluatedAt, EvidenceOf(rec, v), s.version + 1, env.rules);
      } else {
        OutOfTime(s, event, s.version + 1, env.rules);
      }
    }
  }

  lemma OutOfTime(s: L.State, e: L.Event, version: nat, rules: L.Rules)
    requires !Acceptance.InTime(s, e.at)
    ensures L.ApplyEvent(s, e, version, rules).Refused?
  {
  }

  lemma RevalidatesAt(env: Env, s: L.State, rec: Record, req: Request)
    requires Revalidate(env, s, rec, req).Ok?
    ensures Revalidate(env, s, rec, req).value.evaluatedAt == req.context.evaluationTime
  {
    hide ResolveAuthority, AdmitState, StillAdmitted, ActiveReservation;
  }

  // A revalidation that is refused is never refused for being still valid.
  lemma NeverStillValid(env: Env, s: L.State, rec: Record, req: Request)
    ensures Revalidate(env, s, rec, req) != Refused("AUTHORIZATION_STILL_VALID")
  {
    hide ResolveAuthority, AdmitState, StillAdmitted;
  }

  // A closed reservation, its generation never attempted, nothing ever used and everything released.
  predicate ClosedUnused(s: L.State, rec: Record) {
    && rec.reservation in s.reservations
    && var r := s.reservations[rec.reservation];
       && r.generation == rec.generation && r.action == rec.action.id && r.status.CLOSED? && L.AttemptsOf(s, rec.reservation) == []
       && forall i :: 0 <= i < |r.demands| ==> r.demands[i].consumed == 0 && r.demands[i].released == r.demands[i].reserved
  }

  lemma AlreadyClosedExactly(env: Env, s: L.State, rec: Record, req: Request)
    ensures CloseStep(env, s, rec, req) == Done(ALREADY_CLOSED) <==> ClosedUnused(s, rec)
  {
    hide Revalidate, L.ApplyBatch;
  }

  // Every requirement of the request is met once, by a finding supplied for it that passed, and none is left over; none
  // stands in for the engine's own three.
  ghost predicate Satisfied(areq: AttemptRequest, subject: string) {
    && ValidIdentifier(subject)
    && (forall i :: 0 <= i < |areq.requirements| ==> ValidIdentifier(areq.requirements[i].subject) && areq.requirements[i] !in OwnChecks(subject))
    && (forall i, j :: 0 <= i < j < |areq.requirements| ==> areq.requirements[i] != areq.requirements[j])
    && (forall i, j :: 0 <= i < j < |areq.results| ==> areq.results[i].check != areq.results[j].check)
    && (forall i :: 0 <= i < |areq.results| ==> FindingHolds(areq.results[i], areq.requirements))
    && forall i :: 0 <= i < |areq.requirements| ==> Names(areq.results, areq.requirements[i])
  }

  predicate FindingHolds(f: Finding, requirements: seq<Check>) {
    && f.check in requirements && f.outcome.PASS? && WellShaped(f)
    && (f.check.kind.CREDENTIAL_SCOPE? || f.check.kind.NONCE_SLOT?)
  }

  lemma SatisfiedIs(areq: AttemptRequest, subject: string, rec: Record, v: Revalidation)
    ensures Accepts(OwnChecks(subject) + areq.requirements, OwnResults(subject, rec, v), areq.results) <==> Satisfied(areq, subject)
  {
    hide WellShaped, ValidIdentifier;
    var own, control, all := OwnChecks(subject), OwnResults(subject, rec, v), OwnChecks(subject) + areq.requirements;
    assert forall i :: 0 <= i < 3 ==> all[i] == own[i] == control[i].check;
    assert forall i :: 0 <= i < |areq.requirements| ==> all[3 + i] == areq.requirements[i];
    if Accepts(all, control, areq.results) {
      AcceptedSatisfies(areq, subject, rec, v);
    }
    if Satisfied(areq, subject) {
      SatisfiedAccepted(areq, subject, rec, v);
    }
  }

  lemma NamesOwn(subject: string, rec: Record, v: Revalidation, c: Check)
    ensures Names(OwnResults(subject, rec, v), c) ==> c in OwnChecks(subject)
  {
    hide EvidenceDigest;
  }

  lemma AcceptedSatisfies(areq: AttemptRequest, subject: string, rec: Record, v: Revalidation)
    requires Accepts(OwnChecks(subject) + areq.requirements, OwnResults(subject, rec, v), areq.results)
    ensures Satisfied(areq, subject)
  {
    hide WellShaped, ValidIdentifier, Accepts, FindingHolds, OwnResults;
    var own, control := OwnChecks(subject), OwnResults(subject, rec, v);
    forall c | Names(control, c) ensures c in own {
      NamesOwn(subject, rec, v, c);
    }
    assert own[0] in own && own[0].subject == subject && forall c :: c in own ==> ControlEvaluated(c.kind);
    hide OwnChecks, Names, ControlEvaluated;
    RequirementsMet(own, control, areq.requirements, areq.results);
    ResultsMet(own, control, areq.requirements, areq.results);
  }

  // Whatever the engine's own checks are: the requirements beside them are met by what was supplied, each once,
  lemma RequirementsMet(own: seq<Check>, control: seq<Finding>, requirements: seq<Check>, results: seq<Finding>)
    requires Accepts(own + requirements, control, results) && forall c :: Names(control, c) ==> c in own
    ensures forall c :: c in own ==> ValidIdentifier(c.subject)
    ensures forall i :: 0 <= i < |requirements| ==> ValidIdentifier(requirements[i].subject) && requirements[i] !in own
    ensures forall i :: 0 <= i < |requirements| ==> Names(results, requirements[i])
    ensures forall i, j :: 0 <= i < j < |requirements| ==> requirements[i] != requirements[j]
  {
    hide WellShaped, ValidIdentifier, ControlEvaluated, PreExecution.Reserved;
    var all := own + requirements;
    assert forall i :: 0 <= i < |own| ==> all[i] == own[i];
    assert forall i :: 0 <= i < |requirements| ==> all[|own| + i] == requirements[i];
    forall c | c in own ensures ValidIdentifier(c.subject) {
      var i :| 0 <= i < |own| && own[i] == c;
      assert all[i] == c;
    }
    forall i | 0 <= i < |requirements|
      ensures ValidIdentifier(requirements[i].subject) && requirements[i] !in own
      ensures Names(results, requirements[i])
    {
      assert Names(control, all[|own| + i]) || Names(results, all[|own| + i]);
    }
    forall i, j | 0 <= i < j < |requirements| ensures requirements[i] != requirements[j] {
      assert all[|own| + i] != all[|own| + j];
    }
  }

  // and what was supplied is only that.
  lemma ResultsMet(own: seq<Check>, control: seq<Finding>, requirements: seq<Check>, results: seq<Finding>)
    requires Accepts(own + requirements, control, results) && forall c :: c in own ==> ControlEvaluated(c.kind)
    ensures forall i, j :: 0 <= i < j < |results| ==> results[i].check != results[j].check
    ensures forall i :: 0 <= i < |results| ==> FindingHolds(results[i], requirements)
  {
    hide WellShaped, ValidIdentifier, Names;
    forall i | 0 <= i < |results| ensures FindingHolds(results[i], requirements) {
      assert results[i].check in own + requirements && !ControlEvaluated(results[i].check.kind);
    }
  }

  lemma SatisfiedAccepted(areq: AttemptRequest, subject: string, rec: Record, v: Revalidation)
    requires Satisfied(areq, subject)
    ensures Accepts(OwnChecks(subject) + areq.requirements, OwnResults(subject, rec, v), areq.results)
  {
    hide WellShaped, ValidIdentifier;
    var own, control, all := OwnChecks(subject), OwnResults(subject, rec, v), OwnChecks(subject) + areq.requirements;
    assert all[0] == own[0] && all[1] == own[1] && all[2] == own[2];
    forall i, j | 0 <= i < j < |all| ensures all[i] != all[j] {
      if i < 3 <= j {
        assert areq.requirements[j - 3] !in own && own[i] in own;
      } else if i >= 3 {
        assert areq.requirements[i - 3] != areq.requirements[j - 3];
      }
    }
    forall i | 0 <= i < |all| ensures ValidIdentifier(all[i].subject) && (Names(control, all[i]) || Names(areq.results, all[i])) {
      if i < 3 {
        assert control[i].check == all[i];
      } else {
        assert Names(areq.results, areq.requirements[i - 3]);
      }
    }
    forall i | 0 <= i < |control| ensures control[i].check in all && control[i].outcome.PASS? {
      assert control[i].check == all[i];
    }
    forall i | 0 <= i < |areq.results| ensures areq.results[i].check in all && areq.results[i].outcome.PASS? && WellShaped(areq.results[i])
                                            && !ControlEvaluated(areq.results[i].check.kind) && !PreExecution.Reserved(areq.results[i].check.kind) {
      assert FindingHolds(areq.results[i], areq.requirements);
    }
  }

  // The findings behind an admission: the engine's three of this revalidation, module and adapter, and those supplied,
  // in canonical order.
  ghost predicate ListsFindings(rec: Record, areq: AttemptRequest, subject: string, v: Revalidation, fs: seq<Finding>) {
    && |fs| == 3 + |areq.results|
    && Own(STATE_REVALIDATION, subject, if v.PASSED? && v.refreshed then "REFRESHED" else "READMITTED", v.id) in fs
    && Own(MODULE_TRUST, subject, "ISSUABLE", ModuleDigest(rec.action.moduleRef)) in fs
    && Own(ADAPTER_TRUST, subject, "USABLE", AdapterDigest(rec.action.adapter)) in fs
    && (forall i :: 0 <= i < |areq.results| ==> areq.results[i] in fs)
    && forall i, j :: 0 <= i < j < |fs| ==> Precedes(fs[i].check, fs[j].check)
  }

  lemma FindingsListed(rec: Record, areq: AttemptRequest, subject: string, v: Revalidation)
    requires Checked(OwnChecks(subject) + areq.requirements, OwnResults(subject, rec, v), areq.results).Ok?
    ensures ListsFindings(rec, areq, subject, v,
              Checked(OwnChecks(subject) + areq.requirements, OwnResults(subject, rec, v), areq.results).value)
  {
    var required, own := OwnChecks(subject) + areq.requirements, OwnResults(subject, rec, v);
    var fs := Checked(required, own, areq.results).value;
    hide Own, Checked, Precedes;
    OwnAre(subject, rec, v);
    CheckedIsSorted(required, own, areq.results);
    forall i, j | 0 <= i < j < |fs| ensures Precedes(fs[i].check, fs[j].check) {
      CheckedInOrder(required, own, areq.results, i, j);
    }
    ListedIn(own, areq.results, fs);
    assert own[0] in own && own[1] in own && own[2] in own;
  }

  lemma OwnAre(subject: string, rec: Record, v: Revalidation)
    ensures OwnFindings(OwnResults(subject, rec, v))
  {
    hide EvidenceDigest;
  }

  lemma ListedIn(own: seq<Finding>, supplied: seq<Finding>, fs: seq<Finding>)
    requires multiset(fs) == multiset(own) + multiset(supplied)
    ensures |fs| == |own| + |supplied|
    ensures (forall f :: f in own ==> f in fs) && forall i :: 0 <= i < |supplied| ==> supplied[i] in fs
  {
    assert |fs| == |multiset(fs)| == |multiset(own)| + |multiset(supplied)|;
    forall f | f in own + supplied ensures f in fs {
      assert f in multiset(own) || f in multiset(supplied);
      assert f in multiset(fs);
    }
  }

  // The admission of a first attempt: the record's own terms, the request's artifact, slot, account and end.
  ghost predicate AdmitsFor(rec: Record, areq: AttemptRequest, subject: string, v: Revalidation, a: L.Admission) {
    && a.ordinal == 1 && a.reservation == rec.reservation && a.generation == rec.generation && a.action == rec.action.id
    && a.authorization == rec.executionId && a.moduleRef == rec.action.moduleRef && a.adapter == rec.action.adapter
    && a.attempt == L.AttemptId(rec.reservation, rec.generation, rec.action.id, rec.action.moduleRef, rec.action.adapter, rec.executionId, 1)
    && a.venueAccount == areq.venueAccount && a.artifact == areq.artifact && a.slot == areq.slot && a.validUntil == areq.validUntil
    && a.revalidation == v.id
    && exists fs :: ListsFindings(rec, areq, subject, v, fs) && a.requirements == FindingsDigest(fs)
  }

  // An attempt may be admitted: none was, the adapter is the authorization's and may issue, so may the module, the
  // authorization revalidates, the artifact ends within it, and every requirement is met.
  ghost predicate Admissible(env: Env, s: L.State, rec: Record, areq: AttemptRequest, subject: string) {
    && L.AttemptsOf(s, rec.reservation) == []
    && areq.adapter == rec.action.adapter && env.attemptAdapter(areq.adapter) && env.issuable(rec.action.moduleRef)
    && PassesNow(env, s, rec, areq.revalidation)
    && areq.revalidation.context.evaluationTime < areq.validUntil <= Revalidate(env, s, rec, areq.revalidation).value.validUntil
    && Satisfied(areq, subject)
  }

  // The proposal carries such an admission, at the time of the request, and the ledger accepts it.
  ghost predicate ProposesFor(env: Env, s: L.State, rec: Record, areq: AttemptRequest, subject: string, step: Step<Admitted>)
    requires PassesNow(env, s, rec, areq.revalidation) && step.Propose?
  {
    var v := Revalidate(env, s, rec, areq.revalidation).value;
    && step.event.AdmitAttempt? && step.event.at == areq.revalidation.context.evaluationTime
    && AdmitsFor(rec, areq, subject, v, step.event.admission) && step.result == ADMITTED(step.event.admission, v.validUntil)
    && Ready(s, step.event) && L.ApplyBatch(s, [step.event], env.rules).Ok?
  }

  ghost predicate AlwaysReady(env: Env, s: L.State, rec: Record, areq: AttemptRequest, subject: string)
    requires PassesNow(env, s, rec, areq.revalidation)
  {
    forall a :: AdmitsFor(rec, areq, subject, Revalidate(env, s, rec, areq.revalidation).value, a) ==>
      Ready(s, L.AdmitAttempt(areq.revalidation.context.evaluationTime, a))
  }

  // An attempt is proposed exactly when it may be admitted and the ledger accepts that admission.
  lemma AdmitsExactly(env: Env, s: L.State, rec: Record, areq: AttemptRequest, subject: string)
    requires LI.Inv(s)
    ensures var step := AdmitStep(env, s, rec, areq, subject);
            && (step.Propose? ==> Admissible(env, s, rec, areq, subject) && ProposesFor(env, s, rec, areq, subject, step))
            && (Admissible(env, s, rec, areq, subject) && AlwaysReady(env, s, rec, areq, subject) ==> step.Propose?)
            && (step.Done? ==> !step.result.ADMITTED?)
            && (step.Done? && step.result.EXISTING? <==> L.AttemptsOf(s, rec.reservation) != [])
            && (step.Done? && step.result.EXISTING? ==> step.result.attempt == L.AttemptsOf(s, rec.reservation)[|L.AttemptsOf(s, rec.reservation)| - 1])
  {
    hide Revalidate, L.ApplyBatch, L.ApplyEvent, LI.Inv, Accepts, Satisfied, Ready, L.AttemptsOf;
    if PassesNow(env, s, rec, areq.revalidation) {
      var v := Revalidate(env, s, rec, areq.revalidation).value;
      RevalidatesAt(env, s, rec, areq.revalidation);
      SatisfiedIs(areq, subject, rec, v);
      var checked := Checked(OwnChecks(subject) + areq.requirements, OwnResults(subject, rec, v), areq.results);
      if checked.Ok? {
        var admission := AdmissionFor(rec, areq, v, checked.value);
        FindingsListed(rec, areq, subject, v);
        assert AdmitsFor(rec, areq, subject, v, admission);
        ReadyIs(s, v.evaluatedAt, admission, env.rules);
      }
    }
  }

  // The ledger accepts this admission, at this time, under a version it can still count.
  ghost predicate Ready(s: L.State, e: L.Event) {
    e.AdmitAttempt? && Acceptance.InTime(s, e.at) && s.version < UINT64_MAX && Charging.AttemptAcceptable(s, e.admission, e.at)
  }

  lemma ReadyIs(s: L.State, at: int, a: L.Admission, rules: L.Rules)
    requires LI.Inv(s)
    ensures L.ApplyBatch(s, [L.AdmitAttempt(at, a)], rules).Ok? <==> Ready(s, L.AdmitAttempt(at, a))
  {
    hide LI.Inv, L.ApplyEvent, Charging.AttemptAcceptable, L.ApplyBatch;
    SingleBatch(s, L.AdmitAttempt(at, a), rules);
    Charging.AttemptExactly(s, at, a, s.version + 1, rules);
  }

  // ---- The retry loop --------------------------------------------------------------------------

  const MAX_COMMIT_ATTEMPTS: int := 32

  // What other callers do before one attempt's read, and between its read and its commit.
  datatype Round = Round(beforeRead: seq<Call>, beforeCommit: seq<Call>)

  predicate ValidRetry(maxAttempts: int) {
    1 <= maxAttempts <= MAX_COMMIT_ATTEMPTS
  }

  function RoundAt(schedule: seq<Round>, i: int): Round {
    if 0 <= i < |schedule| then schedule[i] else Round([], [])
  }

  predicate Quiet(schedule: seq<Round>) {
    forall i :: 0 <= i < |schedule| ==> schedule[i] == Round([], [])
  }

  // How a run of the loop ended.
  datatype Ended<T> = Finished(result: T) | Committed(result: T) | Rejected(code: string) | Exhausted

  class ControlEngine {
    const store: LedgerStore
    const env: Env

    constructor (store: LedgerStore, env: Env)
      requires store.rules == env.rules
      ensures this.store == store && this.env == env
    {
      this.store := store;
      this.env := env;
    }

    // Read, compute from that snapshot alone, and append only if nothing moved; otherwise recompute everything.
    method Retry<T>(step: L.State -> Step<T>, maxAttempts: int, schedule: seq<Round>)
      returns (ended: Ended<T>, ghost others: seq<seq<L.Event>>, ghost own: seq<seq<L.Event>>, ghost before: L.State)
      requires store.Valid() && ValidRetry(maxAttempts)
      modifies store
      ensures store.Valid() && store.batches == old(store.batches) + others + own
      ensures !ended.Exhausted? ==> L.Replay(store.principal, old(store.batches) + others, store.rules) == Ok(before)
      ensures own != [] <==> ended.Committed?
      ensures ended.Committed? ==>
                && step(before).Propose? && own == [[step(before).event]] && ended.result == step(before).result
                && L.ApplyBatch(before, own[0], store.rules) == Ok(store.state)
      ensures ended.Finished? ==> step(before) == Done(ended.result) && before == store.state
      ensures ended.Rejected? ==> step(before).Propose? && before == store.state && L.ApplyBatch(before, [step(before).event], store.rules).Refused?
      ensures ended.Exhausted? ==> |others| >= maxAttempts
      ensures Quiet(schedule) ==> others == [] && !ended.Exhausted? && before == old(store.state)
    {
      hide L.Replay, L.ApplyBatch;
      others, own, before := [], [], store.state;
      var attempt := 1;
      assert old(store.batches) + [] == old(store.batches);
      while attempt <= maxAttempts
        invariant 1 <= attempt <= maxAttempts + 1
        invariant store.Valid() && store.batches == old(store.batches) + others
        invariant |others| >= attempt - 1
        invariant Quiet(schedule) ==> others == [] && attempt == 1
        invariant own == []
      {
        var round := RoundAt(schedule, attempt - 1);
        ghost var early := store.Interfere(round.beforeRead);
        others := others + early;
        var snapshot := store.Read();
        ghost var read := store.batches;
        var proposal := step(snapshot);
        before := snapshot;
        if proposal.Done? {
          assert read == old(store.batches) + others && L.Replay(store.principal, read, store.rules) == Ok(snapshot);
          assert others + [] == others;
          return Finished(proposal.result), others, [], before;
        }
        ghost var late := store.Interfere(round.beforeCommit);
        others := others + late;
        ghost var current, prior := store.state, store.batches;
        assert prior == old(store.batches) + others && L.Replay(store.principal, prior, store.rules) == Ok(current);
        var r := store.CompareAndAppend(snapshot.version, snapshot.head, [proposal.event]);
        if !r.CONFLICTED? {
          SameHeadSameState(store.principal, read, prior, store.rules);
          assert current == snapshot;
          if r.REFUSED_BY_LEDGER? {
            return Rejected(r.code), others, [], before;
          }
          own := [[proposal.event]];
          return Committed(proposal.result), others, own, before;
        }
        assert late != [];
        attempt := attempt + 1;
      }
      assert others + [] == others;
      assert L.Replay(store.principal, old(store.batches) + others, store.rules) == Ok(store.state);
      return Exhausted, others, [], before;
    }

    // AUTHORIZED wrote exactly the decision's own event at exactly the snapshot it was decided on, and its record exists;
    // every other outcome wrote nothing.
    method AuthorizeAndReserve(req: Request, maxAttempts: int, schedule: seq<Round>)
      returns (outcome: Authorized, rec: Option<Record>, ghost others: seq<seq<L.Event>>, ghost own: seq<seq<L.Event>>, ghost before: L.State)
      requires store.Valid() && store.rules == env.rules
      modifies store
      ensures store.Valid() && store.batches == old(store.batches) + others + own
      ensures own != [] <==> outcome.AUTHORIZED?
      ensures outcome.AUTHORIZED? ==>
                && L.Replay(store.principal, old(store.batches) + others, store.rules) == Ok(before)
                && Decide(env, before, req) == Ok(outcome.decision) && own == [[outcome.decision.event]]
                && L.ApplyBatch(before, own[0], store.rules) == Ok(store.state)
                && rec.Some? && RecordOf(outcome.decision, store.state) == Ok(rec.value)
      ensures outcome.AUTHORIZED? ==>
                && env.decisionAdapter(req.action.adapter) && rec.Some? && Records(outcome.decision, store.state, rec.value)
                && exists b :: Decidable(env, before, req, b) && Describes(env, before, req, b, outcome.decision)
      ensures Quiet(schedule) && ValidRetry(maxAttempts) ==>
                (env.decisionAdapter(req.action.adapter) && exists b :: Decidable(env, old(store.state), req, b)) ==> outcome.AUTHORIZED?
      ensures outcome.AUTHORIZATION_REFUSED? && ValidRetry(maxAttempts) ==>
                Decide(env, before, req).Refused? || !env.decisionAdapter(req.action.adapter)
      ensures outcome.AUTHORIZATION_CONFLICT? ==> |others| >= maxAttempts && ValidRetry(maxAttempts)
      ensures Quiet(schedule) ==> others == []
    {
      hide L.Replay, L.ApplyBatch, Decide, RecordOf, Decidable, Describes, Records;
      others, own, before, rec := [], [], store.state, None;
      if !ValidRetry(maxAttempts) {
        assert old(store.batches) + [] + [] == old(store.batches);
        return AUTHORIZATION_REFUSED("RETRY_POLICY_INVALID"), None, [], [], before;
      }
      ghost var batches := store.batches;
      var step := s => AuthorizeStep(env, s, req);
      forall s | step(s).Propose? ensures L.ApplyBatch(s, [step(s).event], store.rules).Ok? {
        DecisionEvent(env, s, req, Decide(env, s, req).value);
      }
      var ended;
      ended, others, own, before := Retry(step, maxAttempts, schedule);
      if !ended.Exhausted? {
        InvHolds(store.principal, batches + others, store.rules, before);
        AuthorizesExactly(env, before, req);
      }
      hide Decidable, Describes, LI.Inv;
      match ended {
        case Exhausted => outcome := AUTHORIZATION_CONFLICT;
        case Rejected(code) => outcome := AUTHORIZATION_REFUSED("LEDGER_CONFLICT");
        case Finished(result) => outcome := result;
        case Committed(result) =>
          outcome := result;
          RecordExists(store.principal, batches + others, store.rules, env, req, before, result.decision, store.state);
          rec := Some(RecordOf(result.decision, store.state).value);
          RecordIs(result.decision, store.state, rec.value);
      }
    }

    // CLOSED wrote one close of an unissued, unconsumed reservation whose revalidation failed at that very state.
    method CloseNeverIssued(target: Record, req: Request, maxAttempts: int, schedule: seq<Round>)
      returns (outcome: Closed, ghost others: seq<seq<L.Event>>, ghost own: seq<seq<L.Event>>, ghost before: L.State)
      requires store.Valid() && store.rules == env.rules
      modifies store
      ensures store.Valid() && store.batches == old(store.batches) + others + own
      ensures own != [] <==> outcome.CLOSED?
      ensures outcome.CLOSED? ==>
                && L.Replay(store.principal, old(store.batches) + others, store.rules) == Ok(before)
                && CloseStep(env, before, target, req).Propose? && own == [[CloseStep(env, before, target, req).event]]
                && outcome == CloseStep(env, before, target, req).result
                && L.ApplyBatch(before, own[0], store.rules) == Ok(store.state)
      ensures outcome.CLOSED? ==>
                && NeverUsed(before, target) && FailsNow(env, before, target, req)
                && |own| == 1 && |own[0]| == 1 && ClosesUnused(before, target, Revalidate(env, before, target, req).value, own[0][0])
                && outcome.evidence == own[0][0].evidence
      ensures outcome == CLOSE_REFUSED("AUTHORIZATION_STILL_VALID") ==>
                own == [] && before == store.state && NeverUsed(before, target) && PassesNow(env, before, target, req)
      ensures Quiet(schedule) && ValidRetry(maxAttempts) && NeverUsed(old(store.state), target) ==>
                && (PassesNow(env, old(store.state), target, req) ==> outcome == CLOSE_REFUSED("AUTHORIZATION_STILL_VALID"))
                && (FailsNow(env, old(store.state), target, req) && Writable(old(store.state), req.context.evaluationTime) ==> outcome.CLOSED?)
      ensures outcome.ALREADY_CLOSED? ==>
                && target.reservation in store.state.reservations
                && store.state.reservations[target.reservation].status.CLOSED?
                && Unconsumed(store.state.reservations[target.reservation]) && AllReleased(store.state.reservations[target.reservation])
      ensures outcome.CLOSE_CONFLICT? ==> |others| >= maxAttempts
      ensures Quiet(schedule) ==> others == [] && !outcome.CLOSE_CONFLICT?
    {
      hide L.Replay, L.ApplyBatch, Revalidate, FailsNow, PassesNow, NeverUsed, ClosesUnused, LI.Inv;
      others, own, before := [], [], store.state;
      if !ValidRetry(maxAttempts) {
        assert old(store.batches) + [] + [] == old(store.batches);
        return CLOSE_REFUSED("RETRY_POLICY_INVALID"), [], [], before;
      }
      ghost var batches := store.batches;
      var step := s => CloseStep(env, s, target, req);
      var ended;
      ended, others, own, before := Retry(step, maxAttempts, schedule);
      if !ended.Exhausted? {
        InvHolds(store.principal, batches + others, store.rules, before);
        ClosesExactly(env, before, target, req);
      }
      match ended {
        case Exhausted => outcome := CLOSE_CONFLICT;
        case Rejected(code) => outcome := CLOSE_REFUSED("LEDGER_CONFLICT");
        case Finished(result) => outcome := result;
        case Committed(result) => outcome := result;
      }
    }

    // ADMITTED wrote the reservation's first and only attempt, revalidated at that very state.
    method AdmitAttempt(target: Record, areq: AttemptRequest, subject: string, maxAttempts: int, schedule: seq<Round>)
      returns (outcome: Admitted, ghost others: seq<seq<L.Event>>, ghost own: seq<seq<L.Event>>, ghost before: L.State)
      requires store.Valid() && store.rules == env.rules
      modifies store
      ensures store.Valid() && store.batches == old(store.batches) + others + own
      ensures own != [] <==> outcome.ADMITTED?
      ensures outcome.ADMITTED? ==>
                && L.Replay(store.principal, old(store.batches) + others, store.rules) == Ok(before)
                && AdmitStep(env, before, target, areq, subject).Propose? && own == [[AdmitStep(env, before, target, areq, subject).event]]
                && outcome == AdmitStep(env, before, target, areq, subject).result
                && L.ApplyBatch(before, own[0], store.rules) == Ok(store.state)
      ensures outcome.ADMITTED? ==>
                && Admissible(env, before, target, areq, subject)
                && AdmitsFor(target, areq, subject, Revalidate(env, before, target, areq.revalidation).value, outcome.admission)
                && own == [[L.AdmitAttempt(areq.revalidation.context.evaluationTime, outcome.admission)]]
      ensures Quiet(schedule) && ValidRetry(maxAttempts) ==>
                Admissible(env, old(store.state), target, areq, subject) && AlwaysReady(env, old(store.state), target, areq, subject) ==> outcome.ADMITTED?
      ensures outcome.EXISTING? ==> outcome.attempt in L.AttemptsOf(store.state, target.reservation)
      ensures outcome.ATTEMPT_CONFLICT? ==> |others| >= maxAttempts
      ensures Quiet(schedule) ==> others == [] && !outcome.ATTEMPT_CONFLICT?
    {
      hide L.Replay, L.ApplyBatch, Revalidate, Checked, Admissible, AdmitsFor, Ready, AlwaysReady, LI.Inv;
      others, own, before := [], [], store.state;
      if !ValidRetry(maxAttempts) {
        assert old(store.batches) + [] + [] == old(store.batches);
        return ATTEMPT_REFUSED("RETRY_POLICY_INVALID"), [], [], before;
      }
      ghost var batches := store.batches;
      var step := s => AdmitStep(env, s, target, areq, subject);
      var ended;
      ended, others, own, before := Retry(step, maxAttempts, schedule);
      if !ended.Exhausted? {
        InvHolds(store.principal, batches + others, store.rules, before);
        AdmitsExactly(env, before, target, areq, subject);
      }
      match ended {
        case Exhausted => outcome := ATTEMPT_CONFLICT;
        case Rejected(code) => outcome := ATTEMPT_REFUSED("LEDGER_CONFLICT");
        case Finished(result) => outcome := result;
        case Committed(result) => outcome := result;
      }
    }

    // REGISTERED wrote exactly the registration derived from the state it was applied to; otherwise nothing was written.
    method Register(derive: L.State -> Result<L.Event>, maxAttempts: int, schedule: seq<Round>)
      returns (outcome: Registered, ghost others: seq<seq<L.Event>>, ghost own: seq<seq<L.Event>>, ghost before: L.State)
      requires store.Valid() && store.rules == env.rules
      modifies store
      ensures store.Valid() && store.batches == old(store.batches) + others + own
      ensures own != [] <==> outcome.REGISTERED?
      ensures outcome.REGISTERED? ==>
                && L.Replay(store.principal, old(store.batches) + others, store.rules) == Ok(before)
                && derive(before).Ok? && own == [[derive(before).value]]
                && L.ApplyBatch(before, own[0], store.rules) == Ok(store.state)
      ensures outcome.REGISTRATION_REFUSED? && ValidRetry(maxAttempts) ==>
                derive(before).Refused? || L.ApplyBatch(before, [derive(before).value], env.rules).Refused?
      ensures outcome.REGISTRATION_CONFLICT? ==> |others| >= maxAttempts
      ensures Quiet(schedule) ==> others == [] && !outcome.REGISTRATION_CONFLICT?
    {
      hide L.Replay, L.ApplyEvents;
      others, own, before := [], [], store.state;
      if !ValidRetry(maxAttempts) {
        assert old(store.batches) + [] + [] == old(store.batches);
        return REGISTRATION_REFUSED("RETRY_POLICY_INVALID"), [], [], before;
      }
      var step := s => RegisterStep(env, s, derive);
      forall s | step(s) == Done(step(s).result) && derive(s).Ok? ensures L.ApplyBatch(s, [derive(s).value], env.rules).Refused? {
        SingleBatch(s, derive(s).value, env.rules);
      }
      var ended;
      ended, others, own, before := Retry(step, maxAttempts, schedule);
      match ended {
        case Exhausted => outcome := REGISTRATION_CONFLICT;
        case Rejected(code) => outcome := REGISTRATION_REFUSED("LEDGER_CONFLICT");
        case Finished(result) => outcome := result;
        case Committed(result) => outcome := result;
      }
    }
  }

  lemma InvHolds(principal: Party, batches: seq<seq<L.Event>>, rules: L.Rules, s: L.State)
    requires L.Replay(principal, batches, rules) == Ok(s)
    ensures LI.Inv(s)
  {
    hide L.Replay, LI.Inv;
    LS.ReplayKeeps(principal, batches, rules);
  }

  lemma RecordExists(principal: Party, batches: seq<seq<L.Event>>, rules: L.Rules, env: Env, req: Request,
                     before: L.State, d: Decision, after: L.State)
    requires L.Replay(principal, batches, rules) == Ok(before) && env.rules == rules
    requires Decide(env, before, req) == Ok(d) && L.ApplyBatch(before, [d.event], rules) == Ok(after)
    ensures RecordOf(d, after).Ok?
  {
    hide Decide, RecordOf, L.Replay, L.ApplyBatch;
    LS.ReplayKeeps(principal, batches, rules);
    LS.BatchKeeps(before, [d.event], rules, after);
    RecordFollowsCommit(env, before, req, d, after);
  }
}
