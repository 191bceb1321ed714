// Any number of issuing calls, other ledger writers, crashes and recoveries over one ledger and one journal:
// what every reachable state satisfies.
module IssuanceSafety {
  import opened Common
  import opened Core
  import opened Market
  import opened Gate
  import opened Issuance
  import L = Ledger
  import LI = LedgerInvariant
  import LS = LedgerSafety

  // ---- The machine -----------------------------------------------------------------------------

  // Where one issuing call stands. A crash or a refusal ends it.
  datatype Stage =
    | Idle
    | Ready(artifact: GateArtifact, source: Source, terms: ArtifactTerms)
    | Admitted(id: L.AttemptId, artifact: GateArtifact, terms: ArtifactTerms)
    | Signed(id: L.AttemptId)
    | Recorded(id: L.AttemptId)
    | Sending(id: L.AttemptId)
    | Waiting(id: L.AttemptId)
    | Over

  // The principal's signature over an artifact's mandate, and the attempt custody was shown for it.
  datatype Signature = Signature(id: L.AttemptId, artifact: GateArtifact)

  // `answers` is what the chain said of each call handed to it: nothing was sent, no receipt could be read, or the receipt.
  datatype World = World(
    ledger: L.State, records: Records, signatures: set<Signature>, broadcast: set<L.AttemptId>, answers: map<L.AttemptId, Chain>,
    runners: seq<Stage>)

  datatype Config = Config(rules: L.Rules, signer: SignerConfig, binding: Binding)

  function At(w: World, i: nat, stage: Stage): World
    requires i < |w.runners|
  {
    w.(runners := w.runners[i := stage])
  }

  // Anyone commits a batch: grants, reservations, closes, other attempts.
  ghost predicate LedgerMoves(c: Config, w: World, v: World) {
    exists events :: L.ApplyBatch(w.ledger, events, c.rules) == Ok(v.ledger) && v == w.(ledger := v.ledger)
  }

  predicate Starts(w: World, v: World) {
    v == w.(runners := w.runners + [Idle])
  }

  predicate Dies(w: World, v: World, i: nat) {
    i < |w.runners| && v == At(w, i, Over)
  }

  // The guard before admission, on a generation without an attempt.
  ghost predicate Constructs(w: World, v: World, i: nat) {
    && i < |w.runners| && w.runners[i].Idle?
    && exists source: Source, terms: ArtifactTerms ::
         && Reviewed(terms.market)
         && L.AttemptsOf(w.ledger, source.reservation) == []
         && CheckGateArtifact(BuildGateArtifact(source, terms), source, terms) == None
         && v == At(w, i, Ready(BuildGateArtifact(source, terms), source, terms))
  }

  // The admission names the execution commitment, the gate slot and the deadline of what was constructed.
  predicate AdmissionFor(c: Config, a: L.Admission, artifact: GateArtifact, source: Source, terms: ArtifactTerms) {
    && a.artifact == L.Artifact(ARTIFACT_KIND, artifact.commitment)
    && a.slot == Some(L.Slot(SlotScope(terms.gate.chainId, terms.gate.gate, terms.principal), artifact.mandate.nonce))
    && a.validUntil == artifact.terms.deadline + 1
    && a.reservation == source.reservation && a.generation == source.generation
    && a.authorization == source.executionId && a.adapter == source.adapter
  }

  ghost predicate Admits(c: Config, w: World, v: World, i: nat) {
    && i < |w.runners| && w.runners[i].Ready?
    && exists at, a ::
         && AdmissionFor(c, a, w.runners[i].artifact, w.runners[i].source, w.runners[i].terms)
         && L.ApplyBatch(w.ledger, [L.AdmitAttempt(at, a)], c.rules) == Ok(v.ledger)
         && v == At(w, i, Admitted(a.attempt, w.runners[i].artifact, w.runners[i].terms)).(ledger := v.ledger)
  }

  // Custody is shown the attempt and the artifact, reads the ledger and journal itself, and signs.
  ghost predicate Signs(c: Config, w: World, v: World, i: nat) {
    && i < |w.runners| && w.runners[i].Admitted?
    && var s := w.runners[i];
       && s.id in w.ledger.attempts && Reviewed(s.terms.market)
       && (exists now, lifecycle ::
             VerifyAdmitted(View(w.ledger, w.records, lifecycle, now), c.binding, c.signer.principalAddress, s.artifact, s.terms,
               ClaimOf(w.ledger.attempts[s.id].admission)) == None)
       && v == At(w, i, Signed(s.id)).(signatures := w.signatures + {Signature(s.id, s.artifact)})
  }

  function ClaimOf(a: L.Admission): Claim {
    Claim(a.attempt, a.reservation, a.generation, a.action)
  }

  // Signing failed, with or without the principal's signature made: the attempt is recorded as unknown.
  predicate SignFails(w: World, v: World, i: nat) {
    && i < |w.runners| && (w.runners[i].Admitted? || w.runners[i].Signed?)
    && v == At(w, i, Over).(records := OrElse(Opened(w.ledger, w.records, w.runners[i].id, OUTCOME_UNKNOWN), w.records))
  }

  predicate Opens(w: World, v: World, i: nat) {
    && i < |w.runners| && w.runners[i].Signed?
    && var r := Opened(w.ledger, w.records, w.runners[i].id, ARTIFACT_ISSUED);
       v == At(w, i, if r.Ok? then Recorded(w.runners[i].id) else Over).(records := OrElse(r, w.records))
  }

  // The journal's answer to a transition is not looked at.
  predicate Moves(w: World, v: World, i: nat, to: IssuanceState, stage: Stage) {
    && i < |w.runners| && (w.runners[i].Recorded? || w.runners[i].Waiting?)
    && v == At(w, i, stage).(records := OrElse(Moved(w.records, w.runners[i].id, to), w.records))
  }

  predicate PreflightFails(w: World, v: World, i: nat) {
    i < |w.runners| && w.runners[i].Recorded? && Moves(w, v, i, OUTCOME_UNKNOWN, Over)
  }

  predicate Sends(w: World, v: World, i: nat) {
    i < |w.runners| && w.runners[i].Recorded? && Moves(w, v, i, SUBMISSION_SENT, Sending(w.runners[i].id))
  }

  predicate Broadcasts(w: World, v: World, i: nat) {
    && i < |w.runners| && w.runners[i].Sending?
    && v == At(w, i, Waiting(w.runners[i].id)).(broadcast := w.broadcast + {w.runners[i].id})
  }

  ghost predicate Finishes(w: World, v: World, i: nat) {
    && i < |w.runners| && w.runners[i].Waiting?
    && exists chain: Chain :: !chain.PreflightReverted? && Answers(w, v, i, chain)
  }

  // The chain's answer ends the call, and its record becomes what the answer says.
  predicate Answers(w: World, v: World, i: nat, chain: Chain) {
    && i < |w.runners| && w.runners[i].Waiting?
    && v == At(w, i, Over).(records := OrElse(Moved(w.records, w.runners[i].id, Final(chain)), w.records),
                            answers := w.answers[w.runners[i].id := chain])
  }

  // One record of a recovery pass; a pass is a sequence of these, and others may act in between.
  predicate Recovers(c: Config, w: World, v: World, id: L.AttemptId) {
    v == w.(records := RecoveredOne(w.ledger, w.records, c.signer.adapter.digest, id))
  }

  ghost predicate RunnerStep(c: Config, w: World, v: World, i: nat) {
    || Dies(w, v, i) || Constructs(w, v, i) || Admits(c, w, v, i) || Signs(c, w, v, i) || SignFails(w, v, i) || Opens(w, v, i)
    || PreflightFails(w, v, i) || Sends(w, v, i) || Broadcasts(w, v, i) || Finishes(w, v, i)
  }

  ghost predicate Next(c: Config, w: World, v: World) {
    || LedgerMoves(c, w, v)
    || Starts(w, v)
    || (exists i: nat :: RunnerStep(c, w, v, i))
    || (exists id :: Recovers(c, w, v, id))
  }

  ghost predicate Run(c: Config, principal: Party, trace: seq<World>) {
    && trace != []
    && trace[0] == World(L.EmptyState(principal), map[], {}, {}, map[], [])
    && forall k :: 0 < k < |trace| ==> Next(c, trace[k - 1], trace[k])
  }

  // ---- Attempts are never forgotten or rewritten -----------------------------------------------

  ghost predicate Persist(before: map<L.AttemptId, L.Attempt>, after: map<L.AttemptId, L.Attempt>) {
    forall id :: id in before ==> id in after && after[id] == before[id]
  }

  lemma EventAttempts(s: L.State, e: L.Event, version: nat, rules: L.Rules)
    requires L.ApplyEvent(s, e, version, rules).Ok?
    ensures Persist(s.attempts, L.ApplyEvent(s, e, version, rules).value.attempts)
  {
    match e
    case RegisterGrant(at, grant, semantics) => var node := LI.RegisterGrantEffect(s, grant, semantics, at, version, rules);
    case AdmitAttempt(at, admission) => LI.AdmitEffect(s, admission, at, version);
    case _ =>
  }

  lemma {:induction false} EventsAttempts(s: L.State, events: seq<L.Event>, version: nat, rules: L.Rules)
    requires L.ApplyEvents(s, events, version, rules).Ok?
    ensures Persist(s.attempts, L.ApplyEvents(s, events, version, rules).value.attempts)
    decreases |events|
  {
    hide L.ApplyEvent;
    if events != [] {
      EventAttempts(s, events[0], version, rules);
      EventsAttempts(L.ApplyEvent(s, events[0], version, rules).value, events[1..], version, rules);
    }
  }

  lemma BatchAttempts(s: L.State, events: seq<L.Event>, rules: L.Rules, t: L.State)
    requires L.ApplyBatch(s, events, rules) == Ok(t)
    ensures Persist(s.attempts, t.attempts)
  {
    hide L.ApplyEvents;
    EventsAttempts(s, events, s.version + 1, rules);
  }

  // A batch of one event leaves what the event leaves, but for its version and head.
  lemma BatchOfOne(s: L.State, e: L.Event, rules: L.Rules, t: L.State) returns (u: L.State)
    requires L.ApplyBatch(s, [e], rules) == Ok(t)
    ensures L.ApplyEvent(s, e, s.version + 1, rules) == Ok(u) && t.attempts == u.attempts
  {
    hide L.ApplyEvent;
    assert [e][0] == e && [e][1..] == [];
    u := L.ApplyEvent(s, e, s.version + 1, rules).value;
    assert L.ApplyEvents(s, [e], s.version + 1, rules) == L.ApplyEvents(u, [], s.version + 1, rules) == Ok(u);
  }

  lemma AdmitEvent(s: L.State, at: int, a: L.Admission, version: nat, rules: L.Rules, u: L.State)
    requires L.ApplyEvent(s, L.AdmitAttempt(at, a), version, rules) == Ok(u)
    ensures a.attempt !in s.attempts && a.attempt in u.attempts && u.attempts[a.attempt].admission == a
  {
    hide L.AdmissionShape, L.ResolveLineage, L.LineageRefusal, L.ApplyRegisterPolicy, L.ApplyRegisterGrant, L.ApplyRevoke, L.ApplyReserve,
      L.ApplyAccount, L.AttemptsOf, L.DerivedAttemptId;
  }

  lemma AdmitBatch(s: L.State, at: int, a: L.Admission, rules: L.Rules, t: L.State)
    requires L.ApplyBatch(s, [L.AdmitAttempt(at, a)], rules) == Ok(t)
    ensures a.attempt !in s.attempts && a.attempt in t.attempts && t.attempts[a.attempt].admission == a
  {
    hide L.ApplyEvent, L.ApplyBatch;
    var u := BatchOfOne(s, L.AdmitAttempt(at, a), rules, t);
    AdmitEvent(s, at, a, s.version + 1, rules, u);
  }

  // ---- The invariant ---------------------------------------------------------------------------

  predicate Holds(stage: Stage, id: L.AttemptId) {
    match stage
    case Admitted(x, _, _) => x == id
    case Signed(x) => x == id
    case Recorded(x) => x == id
    case Sending(x) => x == id
    case Waiting(x) => x == id
    case _ => false
  }

  ghost predicate StageOk(attempts: map<L.AttemptId, L.Attempt>, stage: Stage) {
    forall id :: Holds(stage, id) ==> id in attempts
  }

  // No two calls work on one attempt.
  ghost predicate Exclusive(runners: seq<Stage>) {
    forall i, j, id :: 0 <= i < j < |runners| && Holds(runners[i], id) ==> !Holds(runners[j], id)
  }

  ghost predicate SignatureOk(attempts: map<L.AttemptId, L.Attempt>, g: Signature) {
    g.id in attempts && Issuance.Commits(attempts[g.id].admission, g.artifact)
  }

  ghost predicate WorldOk(w: World) {
    && LI.Inv(w.ledger)
    && (forall id :: id in w.records ==> id in w.ledger.attempts)
    && (forall g :: g in w.signatures ==> SignatureOk(w.ledger.attempts, g))
    && (forall i :: 0 <= i < |w.runners| ==> StageOk(w.ledger.attempts, w.runners[i]))
    && Exclusive(w.runners)
  }

  lemma ExclusiveAt(runners: seq<Stage>, i: nat, stage: Stage)
    requires Exclusive(runners) && i < |runners|
    requires forall id :: Holds(stage, id) ==> Holds(runners[i], id) || forall j :: 0 <= j < |runners| ==> !Holds(runners[j], id)
    ensures Exclusive(runners[i := stage])
  {
  }

  lemma LedgerKeeps(c: Config, w: World, t: L.State, events: seq<L.Event>)
    requires WorldOk(w) && L.ApplyBatch(w.ledger, events, c.rules) == Ok(t)
    ensures WorldOk(w.(ledger := t))
  {
    hide LI.Inv, L.ApplyBatch, Exclusive, Issuance.Commits;
    LS.BatchKeeps(w.ledger, events, c.rules, t);
    BatchAttempts(w.ledger, events, c.rules, t);
  }

  // A call that moves on without signing, whatever it records about its own attempt.
  lemma StageKeeps(w: World, i: nat, stage: Stage, records: Records, broadcast: set<L.AttemptId>, answers: map<L.AttemptId, Chain>)
    requires WorldOk(w) && i < |w.runners|
    requires forall id :: Holds(stage, id) ==> Holds(w.runners[i], id)
    requires forall id :: id in records ==> id in w.ledger.attempts
    ensures WorldOk(At(w, i, stage).(records := records, broadcast := broadcast, answers := answers))
  {
    hide LI.Inv, SignatureOk;
    ExclusiveAt(w.runners, i, stage);
  }

  lemma AdmitKeeps(c: Config, w: World, v: World, i: nat)
    requires WorldOk(w) && Admits(c, w, v, i)
    ensures WorldOk(v)
  {
    hide LI.Inv, L.ApplyBatch, L.ApplyEvents, SignatureOk, AdmissionFor;
    var at, a :| AdmissionFor(c, a, w.runners[i].artifact, w.runners[i].source, w.runners[i].terms)
      && L.ApplyBatch(w.ledger, [L.AdmitAttempt(at, a)], c.rules) == Ok(v.ledger)
      && v == At(w, i, Admitted(a.attempt, w.runners[i].artifact, w.runners[i].terms)).(ledger := v.ledger);
    AdmitBatch(w.ledger, at, a, c.rules, v.ledger);
    LedgerKeeps(c, w, v.ledger, [L.AdmitAttempt(at, a)]);
    forall j | 0 <= j < |w.runners| ensures !Holds(w.runners[j], a.attempt) {
      assert StageOk(w.ledger.attempts, w.runners[j]);
    }
    ExclusiveAt(w.runners, i, v.runners[i]);
  }

  lemma SignKeeps(c: Config, w: World, v: World, i: nat)
    requires WorldOk(w) && Signs(c, w, v, i)
    ensures WorldOk(v)
    ensures w.runners[i].id !in w.records && v.signatures == w.signatures + {Signature(w.runners[i].id, w.runners[i].artifact)}
    ensures v.records == w.records
  {
    hide LI.Inv, VerifyAdmitted, Issuance.Commits, SlotScope, AccountLocalId, BuyCost;
    var s := w.runners[i];
    var claim := ClaimOf(w.ledger.attempts[s.id].admission);
    var now, lifecycle :| VerifyAdmitted(View(w.ledger, w.records, lifecycle, now), c.binding, c.signer.principalAddress,
      s.artifact, s.terms, claim) == None;
    AttemptIsItself(w.ledger, s.id);
    VerifiedMeans(View(w.ledger, w.records, lifecycle, now), c.binding, c.signer.principalAddress, s.artifact, s.terms, claim);
    var g := Signature(s.id, s.artifact);
    assert SignatureOk(w.ledger.attempts, g);
    hide SignatureOk;
    StageKeeps(w, i, Signed(s.id), w.records, w.broadcast, w.answers);
    assert v == At(w, i, Signed(s.id)).(signatures := w.signatures + {g});
  }

  lemma AttemptIsItself(s: L.State, id: L.AttemptId)
    requires LI.Inv(s) && id in s.attempts
    ensures s.attempts[id].admission.attempt == id
  {
    hide LI.NodesOk, LI.TargetsOk, LI.PolicyOk, LI.ReservationsOk, LI.SumsOk, LI.EpochsOk, LI.LimitsOk, LI.ActionsOk;
    assert LI.AttemptOk(id, s.attempts[id].admission, s.reservations, s.artifacts, s.slots);
  }

  lemma StepKeeps(c: Config, w: World, v: World, i: nat)
    requires WorldOk(w) && RunnerStep(c, w, v, i)
    ensures WorldOk(v)
  {
    hide LI.Inv, L.ApplyBatch, SignatureOk, Exclusive, StageOk, VerifyAdmitted, CheckGateArtifact, AdmissionFor;
    if Admits(c, w, v, i) {
      AdmitKeeps(c, w, v, i);
    } else if Signs(c, w, v, i) {
      SignKeeps(c, w, v, i);
    } else {
      QuietStep(c, w, v, i);
      StageKeeps(w, i, v.runners[i], v.records, v.broadcast, v.answers);
    }
  }

  // Every other step changes one stage and at most the record of the attempt it holds.
  lemma QuietStep(c: Config, w: World, v: World, i: nat)
    requires RunnerStep(c, w, v, i) && !Admits(c, w, v, i) && !Signs(c, w, v, i)
    requires forall id :: id in w.records ==> id in w.ledger.attempts
    ensures i < |w.runners| && |v.runners| == |w.runners| && v == At(w, i, v.runners[i]).(records := v.records, broadcast := v.broadcast, answers := v.answers)
    ensures v.broadcast != w.broadcast ==> Broadcasts(w, v, i)
    ensures forall id :: Holds(v.runners[i], id) ==> Holds(w.runners[i], id)
    ensures forall id :: id in v.records ==> id in v.ledger.attempts
  {
    hide VerifyAdmitted, CheckGateArtifact, BuildGateArtifact, Reviewed, AdmissionFor, Admits, Signs;
    if Constructs(w, v, i) {
      hide SignFails, Opens, Moves, Finishes, Dies, Broadcasts;
    } else if Finishes(w, v, i) {
      hide SignFails, Opens, Moves, Constructs, Dies, Broadcasts;
    } else {
      hide Constructs, Finishes;
    }
  }

  lemma RecoverKeeps(c: Config, w: World, v: World, id: L.AttemptId)
    requires WorldOk(w) && Recovers(c, w, v, id)
    ensures WorldOk(v)
  {
    hide LI.Inv, SignatureOk, StageOk, Exclusive;
  }

  lemma StartKeeps(w: World, v: World)
    requires WorldOk(w) && Starts(w, v)
    ensures WorldOk(v)
  {
    hide LI.Inv, SignatureOk;
    assert forall i :: 0 <= i < |w.runners| ==> v.runners[i] == w.runners[i];
    assert v.runners[|w.runners|] == Idle;
  }

  lemma NextKeeps(c: Config, w: World, v: World)
    requires WorldOk(w) && Next(c, w, v)
    ensures WorldOk(v)
  {
    hide LI.Inv, L.ApplyBatch, RunnerStep, SignatureOk, StageOk;
    if LedgerMoves(c, w, v) {
      var events :| L.ApplyBatch(w.ledger, events, c.rules) == Ok(v.ledger) && v == w.(ledger := v.ledger);
      LedgerKeeps(c, w, v.ledger, events);
    } else if Starts(w, v) {
      StartKeeps(w, v);
    } else if exists i: nat :: RunnerStep(c, w, v, i) {
      var i: nat :| RunnerStep(c, w, v, i);
      StepKeeps(c, w, v, i);
    } else {
      var id :| Recovers(c, w, v, id);
      RecoverKeeps(c, w, v, id);
    }
  }

  lemma {:induction false} EveryWorldOk(c: Config, principal: Party, trace: seq<World>, k: nat)
    requires Run(c, principal, trace) && k < |trace|
    ensures WorldOk(trace[k])
    decreases k
  {
    hide WorldOk, Next, LI.Inv;
    if k == 0 {
      NothingYet(principal);
    } else {
      EveryWorldOk(c, principal, trace, k - 1);
      NextKeeps(c, trace[k - 1], trace[k]);
    }
  }

  lemma NothingYet(principal: Party)
    ensures WorldOk(World(L.EmptyState(principal), map[], {}, {}, map[], []))
  {
    LS.EmptyOk(principal);
    hide LI.Inv;
  }

  // ---- Signatures ------------------------------------------------------------------------------

  // In every reachable state a principal signature exists only for an artifact whose commitment, name, slot and
  // deadline a durable admitted attempt holds.
  lemma SignedIsAdmitted(c: Config, principal: Party, trace: seq<World>, k: nat, g: Signature)
    requires Run(c, principal, trace) && k < |trace| && g in trace[k].signatures
    ensures g.id in trace[k].ledger.attempts && Issuance.Commits(trace[k].ledger.attempts[g.id].admission, g.artifact)
  {
    hide Run, Next, LI.Inv, Issuance.Commits;
    EveryWorldOk(c, principal, trace, k);
    assert SignatureOk(trace[k].ledger.attempts, g);
  }

  // No attempt was signed twice, and none that is about to be signed was signed before.
  ghost predicate SignedOnce(w: World) {
    && (forall g, h :: g in w.signatures && h in w.signatures && g.id == h.id ==> g == h)
    && (forall g, i :: g in w.signatures && 0 <= i < |w.runners| && w.runners[i].Admitted? ==> w.runners[i].id != g.id)
  }

  lemma SigningKeepsOnce(c: Config, w: World, v: World, i: nat)
    requires WorldOk(w) && SignedOnce(w) && Signs(c, w, v, i)
    ensures SignedOnce(v)
  {
    hide LI.Inv, SignatureOk, StageOk, VerifyAdmitted;
    OnlyHolder(w.runners, i, w.runners[i].id);
    forall k | 0 <= k < |v.runners| && v.runners[k].Admitted? ensures v.runners[k].id != w.runners[i].id {
      assert k != i && v.runners[k] == w.runners[k];
      assert !Holds(w.runners[k], w.runners[i].id);
    }
  }

  lemma AdmittingKeepsOnce(c: Config, w: World, v: World, i: nat)
    requires WorldOk(w) && SignedOnce(w) && Admits(c, w, v, i)
    ensures SignedOnce(v)
  {
    hide LI.Inv, L.ApplyBatch, StageOk, Exclusive, AdmissionFor, Issuance.Commits;
    var at, a :| AdmissionFor(c, a, w.runners[i].artifact, w.runners[i].source, w.runners[i].terms)
      && L.ApplyBatch(w.ledger, [L.AdmitAttempt(at, a)], c.rules) == Ok(v.ledger)
      && v == At(w, i, Admitted(a.attempt, w.runners[i].artifact, w.runners[i].terms)).(ledger := v.ledger);
    AdmitBatch(w.ledger, at, a, c.rules, v.ledger);
    assert forall g :: g in w.signatures ==> SignatureOk(w.ledger.attempts, g);
  }

  // Every other step leaves the signatures alone and brings no call before its signature.
  lemma QuietKeepsOnce(c: Config, w: World, v: World)
    requires SignedOnce(w) && Next(c, w, v) && forall i: nat :: !Signs(c, w, v, i) && !Admits(c, w, v, i)
    ensures SignedOnce(v)
  {
    hide L.ApplyBatch, RunnerStep, Signs, Admits;
    if exists i: nat :: RunnerStep(c, w, v, i) {
      var i: nat :| RunnerStep(c, w, v, i);
      QuietLeaves(c, w, v, i);
    }
  }

  lemma QuietLeaves(c: Config, w: World, v: World, i: nat)
    requires RunnerStep(c, w, v, i) && !Admits(c, w, v, i) && !Signs(c, w, v, i)
    ensures v.signatures == w.signatures && i < |w.runners| && v.runners == w.runners[i := v.runners[i]] && !v.runners[i].Admitted?
  {
    hide CheckGateArtifact, BuildGateArtifact, Reviewed, Admits, Signs;
    if Constructs(w, v, i) {
      hide SignFails, Opens, Moves, Finishes, Dies, Broadcasts;
    } else if Finishes(w, v, i) {
      hide SignFails, Opens, Moves, Constructs, Dies, Broadcasts;
    } else {
      hide Constructs, Finishes;
    }
  }

  lemma {:induction false} EveryWorldSignedOnce(c: Config, principal: Party, trace: seq<World>, k: nat)
    requires Run(c, principal, trace) && k < |trace|
    ensures SignedOnce(trace[k])
    decreases k
  {
    hide WorldOk, Next, SignedOnce, Signs, Admits;
    if k == 0 {
      NoSignatures(trace[0]);
    } else {
      var w, v := trace[k - 1], trace[k];
      EveryWorldSignedOnce(c, principal, trace, k - 1);
      EveryWorldOk(c, principal, trace, k - 1);
      if exists i: nat :: Signs(c, w, v, i) {
        var i: nat :| Signs(c, w, v, i);
        SigningKeepsOnce(c, w, v, i);
      } else if exists i: nat :: Admits(c, w, v, i) {
        var i: nat :| Admits(c, w, v, i);
        AdmittingKeepsOnce(c, w, v, i);
      } else {
        QuietKeepsOnce(c, w, v);
      }
    }
  }

  lemma NoSignatures(w: World)
    requires w.signatures == {}
    ensures SignedOnce(w)
  {
  }

  // At most one artifact, its signing domain included, is ever signed for one reservation generation, and none of its
  // contents for another under the same mandate name.
  lemma OneMandatePerGeneration(c: Config, principal: Party, trace: seq<World>, k: nat, g: Signature, h: Signature)
    requires Run(c, principal, trace) && k < |trace| && g in trace[k].signatures && h in trace[k].signatures
    requires g.id.reservation == h.id.reservation || g.artifact.mandate.mandateId == h.artifact.mandate.mandateId
    ensures g == h
  {
    hide Run, Next, LI.Inv;
    EveryWorldOk(c, principal, trace, k);
    var ledger := trace[k].ledger;
    assert SignatureOk(ledger.attempts, g) && SignatureOk(ledger.attempts, h);
    var a, b := ledger.attempts[g.id].admission, ledger.attempts[h.id].admission;
    AttemptNamesReservation(ledger, g.id);
    AttemptNamesReservation(ledger, h.id);
    hide MandateDigest, CandidateDigest, ExecutionCommitment, GateMandateId;
    if g.artifact.mandate.mandateId == h.artifact.mandate.mandateId {
      MandateIdTells(a.authorization, a.reservation, a.generation, a.adapter, b.authorization, b.reservation, b.generation, b.adapter);
    }
    OneAttemptPerReservation(ledger, g.id, h.id);
    EveryWorldSignedOnce(c, principal, trace, k);
  }

  lemma AttemptNamesReservation(s: L.State, id: L.AttemptId)
    requires LI.Inv(s) && id in s.attempts
    ensures s.attempts[id].admission.reservation == id.reservation
  {
    hide LI.NodesOk, LI.TargetsOk, LI.PolicyOk, LI.ReservationsOk, LI.SumsOk, LI.EpochsOk, LI.LimitsOk, LI.ActionsOk;
    assert LI.AttemptOk(id, s.attempts[id].admission, s.reservations, s.artifacts, s.slots);
  }

  lemma OneAttemptPerReservation(s: L.State, a: L.AttemptId, b: L.AttemptId)
    requires LI.Inv(s) && a in s.attempts && b in s.attempts
    requires s.attempts[a].admission.reservation == s.attempts[b].admission.reservation
    ensures a == b
  {
    hide LI.NodesOk, LI.TargetsOk, LI.PolicyOk, LI.ReservationsOk, LI.SumsOk, LI.EpochsOk, LI.LimitsOk, LI.ActionsOk, LI.AttemptOk, LI.IndexesOk;
    var r := s.attempts[a].admission.reservation;
    assert s.reservationAttempts[r] == [a] && s.reservationAttempts[r] == [b];
  }

  // The next slot is one the ledger has never admitted.
  lemma NextSlotIsFree(s: L.State, listing: seq<L.Attempt>, scope: string, next: int)
    requires LI.Inv(s) && forall id :: id in s.attempts ==> s.attempts[id] in listing
    requires forall i :: 0 <= i < |listing| ==> listing[i].admission.slot != Some(L.Slot(scope, next))
    ensures L.Slot(scope, next) !in s.slots
  {
    hide LI.NodesOk, LI.TargetsOk, LI.PolicyOk, LI.ReservationsOk, LI.SumsOk, LI.EpochsOk, LI.LimitsOk, LI.ActionsOk, LI.AttemptOk, LI.OneAttempt;
    forall x | x in s.slots ensures x != L.Slot(scope, next) {
      var attempt := s.attempts[s.slots[x]];
      assert attempt.admission.slot == Some(x);
      var i :| 0 <= i < |listing| && listing[i] == attempt;
    }
  }

  // ---- The journal over a run ------------------------------------------------------------------

  // Records stay, move along the closed table or not at all, and what is recorded is signed no more.
  ghost predicate Forward(w: World, v: World) {
    && Persist(w.ledger.attempts, v.ledger.attempts)
    && w.signatures <= v.signatures
    && (forall id :: id in w.records ==>
          id in v.records && (v.records[id] == w.records[id] || Reaches(w.records[id], v.records[id])))
    && (forall g :: g in v.signatures && g.id in w.records ==> g in w.signatures)
  }

  // Along the closed table, in any number of moves.
  predicate Reaches(s: IssuanceState, t: IssuanceState) {
    MayFollow(s, t) || (s.ARTIFACT_ISSUED? && !t.ARTIFACT_ISSUED?)
  }

  lemma StepForward(c: Config, w: World, v: World)
    requires WorldOk(w) && Next(c, w, v)
    ensures Forward(w, v)
  {
    hide LI.Inv, L.ApplyBatch, SignatureOk, StageOk, Exclusive, VerifyAdmitted, CheckGateArtifact, BuildGateArtifact, AdmissionFor;
    if LedgerMoves(c, w, v) {
      var events :| L.ApplyBatch(w.ledger, events, c.rules) == Ok(v.ledger) && v == w.(ledger := v.ledger);
      BatchAttempts(w.ledger, events, c.rules, v.ledger);
    } else if exists i: nat :: RunnerStep(c, w, v, i) {
      var i: nat :| RunnerStep(c, w, v, i);
      RunnerForward(c, w, v, i);
    }
  }

  lemma RunnerForward(c: Config, w: World, v: World, i: nat)
    requires WorldOk(w) && RunnerStep(c, w, v, i)
    ensures Forward(w, v)
  {
    hide WorldOk, RunnerStep, Admits, Signs, Forward;
    if Admits(c, w, v, i) {
      AdmitForward(c, w, v, i);
    } else if Signs(c, w, v, i) {
      SignForward(c, w, v, i);
    } else {
      QuietForward(c, w, v, i);
    }
  }

  lemma SignForward(c: Config, w: World, v: World, i: nat)
    requires WorldOk(w) && Signs(c, w, v, i)
    ensures Forward(w, v)
  {
    hide WorldOk, VerifyAdmitted, L.ApplyBatch;
    SignKeeps(c, w, v, i);
  }

  lemma AdmitForward(c: Config, w: World, v: World, i: nat)
    requires Admits(c, w, v, i)
    ensures Forward(w, v)
  {
    hide L.ApplyBatch, AdmissionFor;
    var at, a :| AdmissionFor(c, a, w.runners[i].artifact, w.runners[i].source, w.runners[i].terms)
      && L.ApplyBatch(w.ledger, [L.AdmitAttempt(at, a)], c.rules) == Ok(v.ledger)
      && v == At(w, i, Admitted(a.attempt, w.runners[i].artifact, w.runners[i].terms)).(ledger := v.ledger);
    BatchAttempts(w.ledger, [L.AdmitAttempt(at, a)], c.rules, v.ledger);
  }

  lemma QuietForward(c: Config, w: World, v: World, i: nat)
    requires RunnerStep(c, w, v, i) && !Admits(c, w, v, i) && !Signs(c, w, v, i)
    ensures Forward(w, v)
  {
    hide VerifyAdmitted, CheckGateArtifact, BuildGateArtifact, AdmissionFor, Admits, Signs;
  }

  lemma ForwardAgain(u: World, v: World, w: World)
    requires Forward(u, v) && Forward(v, w)
    ensures Forward(u, w)
  {
  }

  // Over any stretch of any run: attempts and signatures persist, a record never goes back, and an attempt once
  // recorded, by issuing, failing or recovery, is never signed again.
  lemma {:induction false} RunsGoForward(c: Config, principal: Party, trace: seq<World>, j: nat, k: nat)
    requires Run(c, principal, trace) && j <= k < |trace|
    ensures Forward(trace[j], trace[k])
    decreases k
  {
    hide Next, WorldOk, Forward;
    if j < k {
      RunsGoForward(c, principal, trace, j, k - 1);
      EveryWorldOk(c, principal, trace, k - 1);
      StepForward(c, trace[k - 1], trace[k]);
      ForwardAgain(trace[j], trace[k - 1], trace[k]);
    } else {
      StandsStill(trace[j]);
    }
  }

  lemma StandsStill(w: World)
    ensures Forward(w, w)
  {
  }

  // A record with no way out keeps its state for the rest of the run.
  lemma TerminalStays(c: Config, principal: Party, trace: seq<World>, j: nat, k: nat, id: L.AttemptId)
    requires Run(c, principal, trace) && j <= k < |trace| && id in trace[j].records && !InFlight(trace[j].records[id])
    ensures id in trace[k].records && trace[k].records[id] == trace[j].records[id]
  {
    hide Run;
    RunsGoForward(c, principal, trace, j, k);
  }

  // A recovery pass is a sequence of the machine's own steps.
  lemma {:induction false} PassIsSteps(c: Config, w: World, listing: seq<L.AttemptId>) returns (steps: seq<World>)
    ensures steps != [] && steps[0] == w
    ensures steps[|steps| - 1] == w.(records := Recovered(w.ledger, w.records, c.signer.adapter.digest, listing))
    ensures forall k :: 0 < k < |steps| ==> Next(c, steps[k - 1], steps[k])
    decreases |listing|
  {
    hide Next;
    if listing == [] {
      steps := [w];
    } else {
      var front, id := listing[..|listing| - 1], listing[|listing| - 1];
      var before := PassIsSteps(c, w, front);
      var u := before[|before| - 1];
      var v := w.(records := Recovered(w.ledger, w.records, c.signer.adapter.digest, listing));
      RecoveryIsStep(c, u, v, id);
      steps := before + [v];
    }
  }

  lemma RecoveryIsStep(c: Config, w: World, v: World, id: L.AttemptId)
    requires Recovers(c, w, v, id)
    ensures Next(c, w, v)
  {
    hide LedgerMoves, RunnerStep;
  }

  // From the end of a pass on, whatever else happens: no attempt it covered is unrecorded or in flight again, none of
  // their records changes, and none of them is signed.
  lemma SettledForGood(c: Config, principal: Party, trace: seq<World>, j: nat, k: nat, listing: seq<L.AttemptId>, id: L.AttemptId)
    requires Run(c, principal, trace) && 0 < j <= k < |trace| && Mine(trace[j].ledger, c.signer.adapter.digest, id)
    requires forall x :: x in listing <==> x in trace[j].ledger.attempts
    requires exists before :: trace[j].records == Recovered(trace[j].ledger, before, c.signer.adapter.digest, listing)
    ensures id in trace[j].records && id in trace[k].records && trace[k].records[id] == trace[j].records[id] && !InFlight(trace[k].records[id])
    ensures forall g :: g in trace[k].signatures && g.id == id ==> g in trace[j].signatures
  {
    hide Run, Recovered;
    var before :| trace[j].records == Recovered(trace[j].ledger, before, c.signer.adapter.digest, listing);
    NothingUnsettled(trace[j].ledger, before, c.signer.adapter.digest, listing, id);
    TerminalStays(c, principal, trace, j, k, id);
    RunsGoForward(c, principal, trace, j, k);
  }

  // The same record by record, with anything happening between the records of a pass: an attempt of this adapter is
  // settled from its own recovery step on, in every later world.
  lemma RecoveredForGood(c: Config, principal: Party, trace: seq<World>, j: nat, k: nat, id: L.AttemptId)
    requires Run(c, principal, trace) && 0 < j <= k < |trace|
    requires Recovers(c, trace[j - 1], trace[j], id) && Mine(trace[j].ledger, c.signer.adapter.digest, id)
    ensures id in trace[j].records && id in trace[k].records && trace[k].records[id] == trace[j].records[id] && !InFlight(trace[k].records[id])
    ensures Unsettled(trace[j - 1].records, id) ==> trace[k].records[id] == OUTCOME_UNKNOWN
    ensures forall g :: g in trace[k].signatures && g.id == id ==> g in trace[j].signatures
  {
    hide Run;
    TerminalStays(c, principal, trace, j, k, id);
    RunsGoForward(c, principal, trace, j, k);
  }

  // ---- What the chain answered -----------------------------------------------------------------

  // A record says a call was mined, or mined and reverted, only of a call the chain said so of.
  predicate RecordTrue(w: World, id: L.AttemptId) {
    id in w.records ==>
      && (w.records[id].SUBMISSION_ACKNOWLEDGED? ==> id in w.answers && w.answers[id] == Mined(MinedSuccess))
      && (w.records[id].SUBMISSION_REJECTED? ==> id in w.answers && w.answers[id] == Mined(MinedReverted))
  }

  // An answered call is one that was handed to the chain and that nobody works on any more.
  predicate AnsweredOver(w: World, id: L.AttemptId) {
    id in w.answers ==>
      id in w.ledger.attempts && id in w.broadcast && !w.answers[id].PreflightReverted? && forall i :: 0 <= i < |w.runners| ==> !Holds(w.runners[i], id)
  }

  predicate WaitsSent(w: World) {
    forall i :: 0 <= i < |w.runners| && w.runners[i].Waiting? ==> w.runners[i].id in w.broadcast
  }

  ghost predicate Truthful(w: World) {
    (forall id :: RecordTrue(w, id) && AnsweredOver(w, id)) && WaitsSent(w)
  }

  lemma FinishTruthful(w: World, v: World, i: nat)
    requires WorldOk(w) && Truthful(w) && Finishes(w, v, i)
    ensures Truthful(v)
  {
    hide LI.Inv, SignatureOk, StageOk, Exclusive;
    var chain: Chain :| !chain.PreflightReverted? && Answers(w, v, i, chain);
    var id := w.runners[i].id;
    assert StageOk(w.ledger.attempts, w.runners[i]) && Holds(w.runners[i], id);
    HolderKnown(w, i, id);
    OnlyHolder(w.runners, i, id);
    assert AnsweredOver(w, id) && RecordTrue(w, id);
    forall x ensures RecordTrue(v, x) && AnsweredOver(v, x) {
      assert RecordTrue(w, x) && AnsweredOver(w, x);
    }
  }

  lemma HolderKnown(w: World, i: nat, id: L.AttemptId)
    requires WorldOk(w) && i < |w.runners| && Holds(w.runners[i], id)
    ensures id in w.ledger.attempts
  {
    hide LI.Inv, SignatureOk, Exclusive;
    assert StageOk(w.ledger.attempts, w.runners[i]);
  }

  lemma AdmitTruthful(c: Config, w: World, v: World, i: nat)
    requires WorldOk(w) && Truthful(w) && Admits(c, w, v, i)
    ensures Truthful(v)
  {
    hide LI.Inv, L.ApplyBatch, SignatureOk, StageOk, Exclusive, AdmissionFor;
    var at, a :| AdmissionFor(c, a, w.runners[i].artifact, w.runners[i].source, w.runners[i].terms)
      && L.ApplyBatch(w.ledger, [L.AdmitAttempt(at, a)], c.rules) == Ok(v.ledger)
      && v == At(w, i, Admitted(a.attempt, w.runners[i].artifact, w.runners[i].terms)).(ledger := v.ledger);
    AdmitBatch(w.ledger, at, a, c.rules, v.ledger);
    BatchAttempts(w.ledger, [L.AdmitAttempt(at, a)], c.rules, v.ledger);
    forall x ensures RecordTrue(v, x) && AnsweredOver(v, x) {
      assert RecordTrue(w, x) && AnsweredOver(w, x);
    }
  }

  lemma RunnerTruthful(c: Config, w: World, v: World, i: nat)
    requires WorldOk(w) && Truthful(w) && RunnerStep(c, w, v, i)
    ensures Truthful(v)
  {
    hide WorldOk, Truthful, RunnerStep, Admits, Signs, Finishes;
    if Admits(c, w, v, i) {
      AdmitTruthful(c, w, v, i);
    } else if Finishes(w, v, i) {
      FinishTruthful(w, v, i);
    } else {
      OtherTruthful(c, w, v, i);
    }
  }

  lemma OtherTruthful(c: Config, w: World, v: World, i: nat)
    requires Truthful(w) && RunnerStep(c, w, v, i) && !Admits(c, w, v, i) && !Finishes(w, v, i)
    ensures Truthful(v)
  {
    hide VerifyAdmitted, CheckGateArtifact, BuildGateArtifact, AdmissionFor, Admits, Finishes, Holds, RecordTrue, AnsweredOver;
    assert i < |w.runners| && |v.runners| == |w.runners| && v.answers == w.answers && v.ledger == w.ledger && w.broadcast <= v.broadcast;
    assert forall k :: 0 <= k < |w.runners| && k != i ==> v.runners[k] == w.runners[k];
    forall x ensures RecordTrue(v, x) && AnsweredOver(v, x) {
      assert RecordTrue(w, x) && AnsweredOver(w, x);
      OneTruthful(c, w, v, i, x);
    }
  }

  lemma OneTruthful(c: Config, w: World, v: World, i: nat, x: L.AttemptId)
    requires RecordTrue(w, x) && AnsweredOver(w, x) && RunnerStep(c, w, v, i) && !Admits(c, w, v, i) && !Finishes(w, v, i)
    ensures RecordTrue(v, x) && AnsweredOver(v, x)
  {
    hide VerifyAdmitted, CheckGateArtifact, BuildGateArtifact, Reviewed, AdmissionFor, Admits, Finishes;
    if Constructs(w, v, i) || Signs(c, w, v, i) || Dies(w, v, i) || Broadcasts(w, v, i) {
      hide SignFails, Opens, PreflightFails, Sends;
    } else {
      hide Constructs, Signs, Dies, Broadcasts;
      if SignFails(w, v, i) || Opens(w, v, i) {
        hide PreflightFails, Sends;
      } else {
        hide SignFails, Opens;
      }
    }
  }

  lemma StepTruthful(c: Config, w: World, v: World)
    requires WorldOk(w) && Truthful(w) && Next(c, w, v)
    ensures Truthful(v)
  {
    hide WorldOk, RunnerStep, L.ApplyBatch;
    if i: nat :| RunnerStep(c, w, v, i) {
      hide Truthful;
      RunnerTruthful(c, w, v, i);
    } else {
      if LedgerMoves(c, w, v) {
        var events :| L.ApplyBatch(w.ledger, events, c.rules) == Ok(v.ledger) && v == w.(ledger := v.ledger);
        BatchAttempts(w.ledger, events, c.rules, v.ledger);
      }
      forall x ensures RecordTrue(v, x) && AnsweredOver(v, x) {
        assert RecordTrue(w, x) && AnsweredOver(w, x);
      }
    }
  }

  lemma {:induction false} EveryWorldTruthful(c: Config, principal: Party, trace: seq<World>, k: nat)
    requires Run(c, principal, trace) && k < |trace|
    ensures Truthful(trace[k])
    decreases k
  {
    hide WorldOk, Next;
    if k > 0 {
      hide Truthful;
      EveryWorldTruthful(c, principal, trace, k - 1);
      EveryWorldOk(c, principal, trace, k - 1);
      StepTruthful(c, trace[k - 1], trace[k]);
    }
  }

  // Over every run, whatever crashes and recoveries it holds: an attempt recorded as acknowledged was handed to the chain
  // and mined with success, and one recorded as rejected was handed to it, mined and reverted.
  lemma RecordsAreTrue(c: Config, principal: Party, trace: seq<World>, k: nat, id: L.AttemptId)
    requires Run(c, principal, trace) && k < |trace| && id in trace[k].records
    ensures trace[k].records[id].SUBMISSION_ACKNOWLEDGED? ==>
              id in trace[k].broadcast && id in trace[k].answers && trace[k].answers[id] == Mined(MinedSuccess)
    ensures trace[k].records[id].SUBMISSION_REJECTED? ==>
              id in trace[k].broadcast && id in trace[k].answers && trace[k].answers[id] == Mined(MinedReverted)
  {
    hide Run;
    EveryWorldTruthful(c, principal, trace, k);
    assert RecordTrue(trace[k], id) && AnsweredOver(trace[k], id);
  }

  // The answer settles a record that says the call was sent, as what it says, and touches no other record: of a call
  // recovery settled meanwhile the outcome stays unknown.
  lemma AnswerSettles(w: World, v: World, i: nat, chain: Chain)
    requires Answers(w, v, i, chain) && w.runners[i].id in w.records
    ensures var id := w.runners[i].id;
            && v.records == w.records[id := v.records[id]]
            && (w.records[id].SUBMISSION_SENT? ==>
                  && (v.records[id].SUBMISSION_ACKNOWLEDGED? <==> chain == Mined(MinedSuccess))
                  && (v.records[id].SUBMISSION_REJECTED? <==> chain == Mined(MinedReverted))
                  && (v.records[id].OUTCOME_UNKNOWN? <==> !chain.Mined?))
            && (!InFlight(w.records[id]) ==> v.records[id] == w.records[id])
  {
  }

  // The chain answers once for each attempt.
  lemma AnswersStay(c: Config, principal: Party, trace: seq<World>, k: nat, id: L.AttemptId)
    requires Run(c, principal, trace) && 0 < k < |trace| && id in trace[k - 1].answers
    ensures id in trace[k].answers && trace[k].answers[id] == trace[k - 1].answers[id]
  {
    hide Holds, AnsweredOver, RecordTrue, VerifyAdmitted, CheckGateArtifact, BuildGateArtifact, AdmissionFor, L.ApplyBatch;
    var w, v := trace[k - 1], trace[k];
    assert Next(c, trace[k - 1], trace[k]);
    EveryWorldTruthful(c, principal, trace, k - 1);
    assert AnsweredOver(w, id);
    if v.answers != w.answers {
      var i: nat :| RunnerStep(c, w, v, i);
      WhoAnswers(c, w, v, i, id);
    }
  }

  lemma WhoAnswers(c: Config, w: World, v: World, i: nat, id: L.AttemptId)
    requires RunnerStep(c, w, v, i) && AnsweredOver(w, id) && id in w.answers
    ensures id in v.answers && v.answers[id] == w.answers[id]
  {
    hide VerifyAdmitted, CheckGateArtifact, BuildGateArtifact, AdmissionFor, L.ApplyBatch;
    if Finishes(w, v, i) {
      assert Holds(w.runners[i], w.runners[i].id);
    }
  }

  // ---- Recovery and calls in flight ------------------------------------------------------------

  // Recovery at rest: no live call is between recording the attempt and handing it to the chain.
  predicate AtRest(w: World, id: L.AttemptId) {
    forall i :: 0 <= i < |w.runners| ==> w.runners[i] != Recorded(id) && w.runners[i] != Sending(id)
  }

  // A step in which recovery, if it changes anything, is at rest.
  ghost predicate NextAtRest(c: Config, w: World, v: World) {
    || LedgerMoves(c, w, v)
    || Starts(w, v)
    || (exists i: nat :: RunnerStep(c, w, v, i))
    || (exists id :: (AtRest(w, id) || v == w) && Recovers(c, w, v, id))
  }

  // A run in which recovery only settles attempts no live call is about to hand to the chain, as after a restart.
  ghost predicate RunAtRest(c: Config, principal: Party, trace: seq<World>) {
    && Run(c, principal, trace)
    && forall k :: 0 < k < |trace| ==> NextAtRest(c, trace[k - 1], trace[k])
  }

  // Up to the hand-over to the chain, a call and the journal agree on how far it is.
  predicate InStep(records: Records, stage: Stage) {
    match stage
    case Recorded(id) => id in records && records[id] == ARTIFACT_ISSUED
    case Sending(id) => id in records && records[id] == SUBMISSION_SENT
    case _ => true
  }

  predicate AllInStep(w: World) {
    forall i :: 0 <= i < |w.runners| ==> InStep(w.records, w.runners[i])
  }

  lemma InStepKeeps(c: Config, w: World, v: World)
    requires WorldOk(w) && AllInStep(w) && NextAtRest(c, w, v)
    ensures AllInStep(v)
  {
    hide LI.Inv, L.ApplyBatch, SignatureOk, StageOk, RunnerStep;
    if exists i: nat :: RunnerStep(c, w, v, i) {
      var i: nat :| RunnerStep(c, w, v, i);
      RunnerInStep(c, w, v, i);
    } else if Starts(w, v) {
      assert forall i :: 0 <= i < |w.runners| ==> v.runners[i] == w.runners[i];
    } else if !LedgerMoves(c, w, v) {
      var id :| (AtRest(w, id) || v == w) && Recovers(c, w, v, id);
      if v != w {
        forall i | 0 <= i < |v.runners| ensures InStep(v.records, v.runners[i]) {
          assert w.runners[i] != Recorded(id) && w.runners[i] != Sending(id) && InStep(w.records, w.runners[i]);
        }
      }
    }
  }

  lemma RunnerInStep(c: Config, w: World, v: World, i: nat)
    requires WorldOk(w) && AllInStep(w) && RunnerStep(c, w, v, i)
    ensures AllInStep(v)
  {
    hide LI.Inv, SignatureOk, StageOk, RunnerStep, Holds;
    var moved := RunnerTouches(c, w, v, i);
    if moved.Some? {
      OnlyHolder(w.runners, i, moved.value);
    }
    hide WorldOk;
    forall k | 0 <= k < |v.runners| ensures InStep(v.records, v.runners[k]) {
      if k != i {
        assert v.runners[k] == w.runners[k] && InStep(w.records, w.runners[k]);
        if moved.Some? {
          Bystander(w.records, v.records, w.runners[k], moved.value);
        }
      }
    }
  }

  lemma OnlyHolder(runners: seq<Stage>, i: nat, id: L.AttemptId)
    requires Exclusive(runners) && i < |runners| && Holds(runners[i], id)
    ensures forall k :: 0 <= k < |runners| && k != i ==> !Holds(runners[k], id)
  {
    hide Holds;
  }

  lemma Bystander(before: Records, after: Records, stage: Stage, id: L.AttemptId)
    requires InStep(before, stage) && !Holds(stage, id)
    requires forall x :: x != id && x in before ==> x in after && after[x] == before[x]
    ensures InStep(after, stage)
  {
  }

  // A call writes only the record of the attempt it holds, and stays in step with it.
  lemma RunnerTouches(c: Config, w: World, v: World, i: nat) returns (moved: Option<L.AttemptId>)
    requires AllInStep(w) && RunnerStep(c, w, v, i)
    ensures i < |w.runners| && |v.runners| == |w.runners| && forall k :: 0 <= k < |w.runners| && k != i ==> v.runners[k] == w.runners[k]
    ensures InStep(v.records, v.runners[i])
    ensures moved.None? ==> v.records == w.records
    ensures moved.Some? ==> Holds(w.runners[i], moved.value)
    ensures moved.Some? ==> forall id :: id != moved.value && id in w.records ==> id in v.records && v.records[id] == w.records[id]
  {
    hide L.ApplyBatch, VerifyAdmitted, CheckGateArtifact, BuildGateArtifact, Reviewed, AdmissionFor;
    assert InStep(w.records, w.runners[i]);
    moved := HeldBy(w.runners[i]);
    if Constructs(w, v, i) || Admits(c, w, v, i) || Signs(c, w, v, i) {
      hide SignFails, Opens, Moves, Finishes, Dies, Broadcasts;
    } else {
      hide Constructs, Admits, Signs;
    }
  }

  function HeldBy(stage: Stage): (r: Option<L.AttemptId>)
    ensures forall id :: Holds(stage, id) <==> r == Some(id)
  {
    match stage
    case Admitted(x, _, _) => Some(x)
    case Signed(x) => Some(x)
    case Recorded(x) => Some(x)
    case Sending(x) => Some(x)
    case Waiting(x) => Some(x)
    case _ => None
  }

  lemma {:induction false} RestedRunsInStep(c: Config, principal: Party, trace: seq<World>, k: nat)
    requires RunAtRest(c, principal, trace) && k < |trace|
    ensures AllInStep(trace[k])
    decreases k
  {
    hide NextAtRest, Next, WorldOk, AllInStep;
    if k == 0 {
      NoRunners(trace[0]);
    } else {
      RestedRunsInStep(c, principal, trace, k - 1);
      EveryWorldOk(c, principal, trace, k - 1);
      InStepKeeps(c, trace[k - 1], trace[k]);
    }
  }

  lemma NoRunners(w: World)
    requires w.runners == []
    ensures AllInStep(w)
  {
  }

  // Every hand-over to the chain in the world pair is of an attempt the journal then says was sent.
  ghost predicate SendsRecorded(w: World, v: World) {
    forall i: nat :: Broadcasts(w, v, i) ==> w.runners[i].id in v.records && v.records[w.runners[i].id] == SUBMISSION_SENT
  }

  // When recovery is at rest, every call handed to the chain is one the journal says was sent.
  lemma BroadcastIsRecorded(c: Config, principal: Party, trace: seq<World>, k: nat)
    requires RunAtRest(c, principal, trace) && 0 < k < |trace|
    ensures SendsRecorded(trace[k - 1], trace[k])
  {
    hide Run, NextAtRest;
    var w, v := trace[k - 1], trace[k];
    RestedRunsInStep(c, principal, trace, k - 1);
    forall i: nat | Broadcasts(w, v, i) ensures w.runners[i].id in v.records && v.records[w.runners[i].id] == SUBMISSION_SENT {
      assert InStep(w.records, w.runners[i]);
    }
  }

  // A call sends in step with the journal exactly when no recovery has settled its record: when it is still in flight.
  lemma SendsInStepExactly(w: World, v: World, i: nat)
    requires Sends(w, v, i) && w.runners[i].id in w.records
    ensures InStep(v.records, v.runners[i]) <==> InFlight(w.records[w.runners[i].id])
  {
    var id := w.runners[i].id;
    assert v.runners[i] == Sending(id);
    assert v.records == OrElse(Moved(w.records, id, SUBMISSION_SENT), w.records);
  }

  // ---- When recovery may run -------------------------------------------------------------------

  function Recovering(c: Config, w: World, id: L.AttemptId): World {
    w.(records := RecoveredOne(w.ledger, w.records, c.signer.adapter.digest, id))
  }

  // After recovering one attempt here, however a rested run goes on, what it hands to the chain is recorded as sent.
  ghost predicate SafeToRecover(c: Config, principal: Party, trace: seq<World>, id: L.AttemptId)
    requires trace != []
  {
    var recovered := trace + [Recovering(c, trace[|trace| - 1], id)];
    forall rest: seq<World>, k :: RestedFrom(c, principal, recovered, rest) && |recovered| <= k < |recovered| + |rest| ==>
      SendsRecorded((recovered + rest)[k - 1], (recovered + rest)[k])
  }

  // A run that goes on at rest from the end of `start`.
  ghost predicate RestedFrom(c: Config, principal: Party, start: seq<World>, rest: seq<World>)
    requires start != []
  {
    && Run(c, principal, start + rest)
    && forall k :: |start| <= k < |start| + |rest| ==> NextAtRest(c, (start + rest)[k - 1], (start + rest)[k])
  }

  lemma RunExtends(c: Config, principal: Party, trace: seq<World>, v: World)
    requires Run(c, principal, trace) && Next(c, trace[|trace| - 1], v)
    ensures Run(c, principal, trace + [v])
  {
    hide Next;
    var longer := trace + [v];
    forall k | 0 < k < |longer| ensures Next(c, longer[k - 1], longer[k]) {
      if k < |trace| {
        assert longer[k - 1] == trace[k - 1] && longer[k] == trace[k];
      }
    }
  }

  lemma RecoveringIsStep(c: Config, w: World, id: L.AttemptId)
    ensures Next(c, w, Recovering(c, w, id))
    ensures AtRest(w, id) || Recovering(c, w, id) == w ==> NextAtRest(c, w, Recovering(c, w, id))
  {
    hide LedgerMoves, RunnerStep;
    assert Recovers(c, w, Recovering(c, w, id), id);
  }

  // The call of one world is waiting for its answer in another, with no record written in between.
  predicate Handed(w: World, v: World, i: nat) {
    && i < |w.runners| && (w.runners[i].Recorded? || w.runners[i].Sending?)
    && i < |v.runners| && v.runners[i] == Waiting(w.runners[i].id) && w.runners[i].id in v.broadcast && v.records == w.records
  }

  // From a world whose call is about to be sent while its record is settled, the run goes on to hand it over.
  lemma GoesOnToSend(c: Config, principal: Party, start: seq<World>, i: nat) returns (more: seq<World>)
    requires Run(c, principal, start)
    requires var w := start[|start| - 1];
             && i < |w.runners| && (w.runners[i].Recorded? || w.runners[i].Sending?)
             && w.runners[i].id in w.records && w.records[w.runners[i].id] == OUTCOME_UNKNOWN
    ensures RestedFrom(c, principal, start, more) && more != []
    ensures Broadcasts((start + more)[|start + more| - 2], (start + more)[|start + more| - 1], i)
    ensures Handed(start[|start| - 1], (start + more)[|start + more| - 1], i)
  {
    assert start != [];
    hide Run, Next, NextAtRest, Exclusive, RestedFrom, Broadcasts;
    var w := start[|start| - 1];
    if w.runners[i].Recorded? {
      var sending := GoesOn(c, w, i);
      var sent := HandsOver(c, sending, i);
      RestedOne(c, principal, start, sending);
      RestedTwo(c, principal, start, sending, sent);
      more := [sending, sent];
      HandsWhatItHeld(sending, sent, i);
    } else {
      var sent := HandsOver(c, w, i);
      RestedOne(c, principal, start, sent);
      more := [sent];
      HandsWhatItHeld(w, sent, i);
    }
  }

  lemma HandsWhatItHeld(w: World, v: World, i: nat)
    requires Broadcasts(w, v, i)
    ensures i < |v.runners| && v.runners[i] == Waiting(w.runners[i].id) && w.runners[i].id in v.broadcast
  {
  }

  lemma RestedOne(c: Config, principal: Party, start: seq<World>, v: World)
    requires Run(c, principal, start) && Next(c, start[|start| - 1], v) && NextAtRest(c, start[|start| - 1], v)
    ensures Run(c, principal, start + [v]) && RestedFrom(c, principal, start, [v])
  {
    hide Next, NextAtRest;
    RunExtends(c, principal, start, v);
  }

  lemma RestedTwo(c: Config, principal: Party, start: seq<World>, u: World, v: World)
    requires start != [] && RestedFrom(c, principal, start, [u]) && Next(c, u, v) && NextAtRest(c, u, v)
    ensures RestedFrom(c, principal, start, [u, v])
  {
    hide Next, NextAtRest;
    var all := start + [u, v];
    assert (start + [u]) + [v] == all;
    RunExtends(c, principal, start + [u], v);
    hide Run;
    assert (start + [u])[|start|] == u && all[|start|] == u && all[|start| + 1] == v;
    assert all[|start| - 1] == (start + [u])[|start| - 1];
  }

  // Recovery settles the record of a call about to be sent, and the call goes on: it hands to the chain an attempt
  // whose record says, in this and every later world of every run that goes on from there, that its outcome is unknown.
  lemma RecoveryInFlight(c: Config, principal: Party, trace: seq<World>, i: nat) returns (more: seq<World>)
    requires Run(c, principal, trace)
    requires var w := trace[|trace| - 1];
             i < |w.runners| && (w.runners[i].Recorded? || w.runners[i].Sending?) && InStep(w.records, w.runners[i])
             && Mine(w.ledger, c.signer.adapter.digest, w.runners[i].id)
    ensures var w := trace[|trace| - 1];
            var id := w.runners[i].id;
            var start := trace + [Recovering(c, w, id)];
            && Recovering(c, w, id) != w && RestedFrom(c, principal, start, more) && more != []
            && var all := start + more;
               && Broadcasts(all[|all| - 2], all[|all| - 1], i)
               && id in all[|all| - 1].broadcast && id in all[|all| - 1].records && all[|all| - 1].records[id] == OUTCOME_UNKNOWN
               && !SendsRecorded(all[|all| - 2], all[|all| - 1])
  {
    assert trace != [];
    hide Run, Next, RestedFrom;
    var w := trace[|trace| - 1];
    var recovered := Recovering(c, w, w.runners[i].id);
    RecoveringIsStep(c, w, w.runners[i].id);
    RunExtends(c, principal, trace, recovered);
    var start := trace + [recovered];
    more := GoesOnToSend(c, principal, start, i);
  }

  // A call whose record was settled meanwhile goes on to send all the same.
  lemma GoesOn(c: Config, w: World, i: nat) returns (v: World)
    requires i < |w.runners| && w.runners[i].Recorded? && w.runners[i].id in w.records && w.records[w.runners[i].id] == OUTCOME_UNKNOWN
    ensures Next(c, w, v) && NextAtRest(c, w, v) && v == At(w, i, Sending(w.runners[i].id))
  {
    hide LedgerMoves, Admits, Signs, Constructs;
    v := At(w, i, Sending(w.runners[i].id));
    assert Sends(w, v, i);
    assert RunnerStep(c, w, v, i);
  }

  lemma HandsOver(c: Config, w: World, i: nat) returns (v: World)
    requires i < |w.runners| && w.runners[i].Sending?
    ensures Broadcasts(w, v, i) && Next(c, w, v) && NextAtRest(c, w, v) && v.records == w.records && v.ledger == w.ledger
  {
    hide LedgerMoves, Admits, Signs, Constructs;
    v := At(w, i, Waiting(w.runners[i].id)).(broadcast := w.broadcast + {w.runners[i].id});
    assert RunnerStep(c, w, v, i);
  }

  // In every run that goes on from a world where an attempt's outcome is unknown, it stays so.
  lemma UnknownForGood(c: Config, principal: Party, trace: seq<World>, more: seq<World>, id: L.AttemptId)
    requires Run(c, principal, trace + more) && trace != []
    requires id in trace[|trace| - 1].records && trace[|trace| - 1].records[id] == OUTCOME_UNKNOWN
    ensures forall k :: |trace| <= k < |trace| + |more| ==>
              id in (trace + more)[k].records && (trace + more)[k].records[id] == OUTCOME_UNKNOWN
  {
    hide Run;
    var all := trace + more;
    assert all[|trace| - 1] == trace[|trace| - 1];
    forall k | |trace| <= k < |all| ensures id in all[k].records && all[k].records[id] == OUTCOME_UNKNOWN {
      TerminalStays(c, principal, all, |trace| - 1, k, id);
    }
  }

  // A rested run stays rested through a rested recovery and a rested continuation.
  lemma StaysRested(c: Config, principal: Party, trace: seq<World>, v: World, rest: seq<World>)
    requires RunAtRest(c, principal, trace) && NextAtRest(c, trace[|trace| - 1], v) && RestedFrom(c, principal, trace + [v], rest)
    ensures RunAtRest(c, principal, trace + [v] + rest)
  {
    hide NextAtRest, Next;
    var all := trace + [v] + rest;
    forall n | 0 < n < |all| ensures NextAtRest(c, all[n - 1], all[n]) {
      if n < |trace| {
        assert all[n - 1] == trace[n - 1] && all[n] == trace[n];
      }
    }
  }

  lemma RestIsSafe(c: Config, principal: Party, trace: seq<World>, id: L.AttemptId)
    requires RunAtRest(c, principal, trace) && NextAtRest(c, trace[|trace| - 1], Recovering(c, trace[|trace| - 1], id))
    ensures SafeToRecover(c, principal, trace, id)
  {
    assert trace != [];
    hide RunAtRest, Run, NextAtRest, SendsRecorded, RestedFrom;
    var v := Recovering(c, trace[|trace| - 1], id);
    var recovered := trace + [v];
    forall rest: seq<World>, k | RestedFrom(c, principal, recovered, rest) && |recovered| <= k < |recovered| + |rest|
      ensures SendsRecorded((recovered + rest)[k - 1], (recovered + rest)[k])
    {
      StaysRested(c, principal, trace, v, rest);
      BroadcastIsRecorded(c, principal, recovered + rest, k);
    }
  }

  // Exactly when recovering an attempt is safe, at the end of any rested run: when it changes nothing, or no live call is
  // between recording the attempt and handing it to the chain.
  lemma SafeToRecoverExactly(c: Config, principal: Party, trace: seq<World>, id: L.AttemptId)
    requires RunAtRest(c, principal, trace)
    ensures SafeToRecover(c, principal, trace, id)
       <==> AtRest(trace[|trace| - 1], id) || Recovering(c, trace[|trace| - 1], id) == trace[|trace| - 1]
  {
    assert trace != [] && Run(c, principal, trace);
    hide Run, NextAtRest, SendsRecorded, RestedFrom;
    var w := trace[|trace| - 1];
    RecoveringIsStep(c, w, id);
    if AtRest(w, id) || Recovering(c, w, id) == w {
      RestIsSafe(c, principal, trace, id);
    } else {
      hide NextAtRest;
      var i := CallInBetween(c, principal, trace, id);
      hide RunAtRest, InStep;
      var recovered := trace + [Recovering(c, w, id)];
      var more := RecoveryInFlight(c, principal, trace, i);
      var k := |recovered| + |more| - 1;
      assert !SendsRecorded((recovered + more)[k - 1], (recovered + more)[k]);
    }
  }

  lemma CallInBetween(c: Config, principal: Party, trace: seq<World>, id: L.AttemptId) returns (i: nat)
    requires RunAtRest(c, principal, trace)
    requires !AtRest(trace[|trace| - 1], id) && Recovering(c, trace[|trace| - 1], id) != trace[|trace| - 1]
    ensures var w := trace[|trace| - 1];
            i < |w.runners| && (w.runners[i] == Recorded(id) || w.runners[i] == Sending(id)) && InStep(w.records, w.runners[i])
            && Mine(w.ledger, c.signer.adapter.digest, id)
  {
    assert trace != [];
    hide Run, NextAtRest, RunAtRest, InStep;
    var w := trace[|trace| - 1];
    i :| 0 <= i < |w.runners| && (w.runners[i] == Recorded(id) || w.runners[i] == Sending(id));
    RestedRunsInStep(c, principal, trace, |trace| - 1);
    assert InStep(w.records, w.runners[i]);
  }
}
