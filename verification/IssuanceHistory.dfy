// Issuance over a ledger whose other writers keep the engine's rule for never-issued closes: what was signed was never
// closed as never issued, and what was so closed is never signed (packages/evm-robinhood/src/issuance.ts:22-26).
module IssuanceHistory {
  import opened Common
  import opened Core
  import opened Gate
  import opened Issuance
  import opened IssuanceSafety
  import C = Concurrency
  import E = Engine
  import L = Ledger
  import LI = LedgerInvariant

  // Every event of a batch keeps the rule at the state it is applied to.
  ghost predicate WritesGuarded(c: Config, w: World, v: World, events: seq<L.Event>) {
    L.ApplyBatch(w.ledger, events, c.rules) == Ok(v.ledger) && C.GuardedEvents(w.ledger, events, w.ledger.version + 1, c.rules)
  }

  ghost predicate GuardedWriter(c: Config, w: World, v: World) {
    v.ledger == w.ledger || exists events :: WritesGuarded(c, w, v, events)
  }

  // A run whose ledger writers are guarded; the steps of issuing calls and of recovery need no such assumption.
  ghost predicate GuardedRun(c: Config, principal: Party, trace: seq<World>) {
    && Run(c, principal, trace)
    && forall k :: 0 < k < |trace| && LedgerMoves(c, trace[k - 1], trace[k]) ==> GuardedWriter(c, trace[k - 1], trace[k])
  }

  lemma OwnStepsAreGuarded(c: Config, w: World, v: World)
    requires Next(c, w, v) && (LedgerMoves(c, w, v) ==> GuardedWriter(c, w, v))
    ensures GuardedWriter(c, w, v)
  {
    hide L.ApplyBatch, C.GuardedEvents, VerifyAdmitted, CheckGateArtifact, BuildGateArtifact, AdmissionFor;
    if i: nat :| Admits(c, w, v, i) {
      var at, a :| AdmissionFor(c, a, w.runners[i].artifact, w.runners[i].source, w.runners[i].terms)
        && L.ApplyBatch(w.ledger, [L.AdmitAttempt(at, a)], c.rules) == Ok(v.ledger)
        && v == At(w, i, Admitted(a.attempt, w.runners[i].artifact, w.runners[i].terms)).(ledger := v.ledger);
      AdmissionIsGuarded(w.ledger, at, a, c.rules);
      assert WritesGuarded(c, w, v, [L.AdmitAttempt(at, a)]);
    }
  }

  lemma AdmissionIsGuarded(s: L.State, at: int, a: L.Admission, rules: L.Rules)
    requires L.ApplyBatch(s, [L.AdmitAttempt(at, a)], rules).Ok?
    ensures C.GuardedEvents(s, [L.AdmitAttempt(at, a)], s.version + 1, rules)
  {
    hide L.ApplyEvent;
    var e := L.AdmitAttempt(at, a);
    E.SingleBatch(s, e, rules);
    assert [e][0] == e && [e][1..] == [];
    assert C.GuardedEvents(L.ApplyEvent(s, e, s.version + 1, rules).value, [], s.version + 1, rules);
  }

  // The batches written so far, world by world.
  ghost predicate Written(c: Config, w: World, v: World, before: seq<seq<L.Event>>, after: seq<seq<L.Event>>) {
    || (after == before && v.ledger == w.ledger)
    || exists events :: after == before + [events] && WritesGuarded(c, w, v, events)
  }

  ghost predicate Logs(c: Config, trace: seq<World>, logs: seq<seq<seq<L.Event>>>) {
    && |logs| == |trace| && (logs != [] ==> logs[0] == [])
    && forall k :: 0 < k < |trace| ==> Written(c, trace[k - 1], trace[k], logs[k - 1], logs[k])
  }

  // Every such run has a log.
  lemma {:induction false} RunHasLogs(c: Config, principal: Party, trace: seq<World>, n: nat) returns (logs: seq<seq<seq<L.Event>>>)
    requires GuardedRun(c, principal, trace) && 0 < n <= |trace|
    ensures Logs(c, trace[..n], logs)
    decreases n
  {
    hide Next, LedgerMoves, GuardedWriter, WritesGuarded;
    if n == 1 {
      logs := [[]];
    } else {
      var before := RunHasLogs(c, principal, trace, n - 1);
      var w, v, last := trace[n - 2], trace[n - 1], before[n - 2];
      assert Next(c, trace[n - 2], trace[n - 1]);
      OwnStepsAreGuarded(c, w, v);
      var after := NextLog(c, w, v, last);
      logs := before + [after];
      forall k | 0 < k < n ensures Written(c, trace[..n][k - 1], trace[..n][k], logs[k - 1], logs[k]) {
        if k < n - 1 {
          assert Written(c, trace[..n - 1][k - 1], trace[..n - 1][k], before[k - 1], before[k]);
        }
      }
    }
  }

  lemma NextLog(c: Config, w: World, v: World, before: seq<seq<L.Event>>) returns (after: seq<seq<L.Event>>)
    requires GuardedWriter(c, w, v)
    ensures Written(c, w, v, before, after)
  {
    hide WritesGuarded;
    if v.ledger == w.ledger {
      after := before;
    } else {
      var events :| WritesGuarded(c, w, v, events);
      after := before + [events];
    }
  }

  // The ledger of a world is what its log replays to.
  lemma {:induction false} LogReplays(c: Config, principal: Party, trace: seq<World>, logs: seq<seq<seq<L.Event>>>, k: nat)
    requires Run(c, principal, trace) && Logs(c, trace, logs) && k < |trace|
    ensures L.Replay(principal, logs[k], c.rules) == Ok(trace[k].ledger) && C.GuardedHistory(principal, logs[k], c.rules)
    decreases k
  {
    hide Next, L.ApplyBatch, C.GuardedEvents;
    if k > 0 {
      LogReplays(c, principal, trace, logs, k - 1);
      assert Written(c, trace[k - 1], trace[k], logs[k - 1], logs[k]);
      if logs[k] != logs[k - 1] || trace[k].ledger != trace[k - 1].ledger {
        var events :| logs[k] == logs[k - 1] + [events] && WritesGuarded(c, trace[k - 1], trace[k], events);
        assert logs[k][..|logs[k]| - 1] == logs[k - 1] && logs[k][|logs[k]| - 1] == events;
      }
    }
  }

  lemma {:induction false} LogGrows(c: Config, trace: seq<World>, logs: seq<seq<seq<L.Event>>>, j: nat, k: nat)
    requires Logs(c, trace, logs) && j <= k < |trace|
    ensures logs[j] <= logs[k]
    decreases k
  {
    hide WritesGuarded;
    if j < k {
      LogGrows(c, trace, logs, j, k - 1);
      assert Written(c, trace[k - 1], trace[k], logs[k - 1], logs[k]);
    }
  }

  // A signed attempt keeps its reservation's attempt list non-empty from then on.
  lemma SignedStaysAdmitted(c: Config, principal: Party, trace: seq<World>, j: nat, k: nat, g: Signature)
    requires Run(c, principal, trace) && j <= k < |trace| && g in trace[j].signatures
    ensures L.AttemptsOf(trace[k].ledger, g.id.reservation) != []
  {
    hide Run, Issuance.Commits, LI.NodesOk, LI.TargetsOk, LI.PolicyOk, LI.ReservationsOk, LI.SumsOk, LI.EpochsOk, LI.LimitsOk, LI.ActionsOk,
      SignatureOk, StageOk, Exclusive, LI.OneAttempt;
    SignedIsAdmitted(c, principal, trace, j, g);
    RunsGoForward(c, principal, trace, j, k);
    EveryWorldOk(c, principal, trace, k);
    AttemptNamesReservation(trace[k].ledger, g.id);
    OneAttemptPerReservation(trace[k].ledger, g.id, g.id);
    Indexed(trace[k].ledger, g.id);
  }

  lemma Indexed(s: L.State, id: L.AttemptId)
    requires LI.Inv(s) && id in s.attempts
    ensures L.AttemptsOf(s, s.attempts[id].admission.reservation) != []
  {
    hide LI.NodesOk, LI.TargetsOk, LI.PolicyOk, LI.ReservationsOk, LI.SumsOk, LI.EpochsOk, LI.LimitsOk, LI.ActionsOk;
  }

  // No generation is ever both signed for and closed as never issued, in whichever order and however much later.
  lemma NeverSignedAndClosed(c: Config, principal: Party, trace: seq<World>, logs: seq<seq<seq<L.Event>>>, j: nat, k: nat, g: Signature)
    requires Run(c, principal, trace) && Logs(c, trace, logs) && j < |trace| && k < |trace| && g in trace[j].signatures
    ensures !C.ClosedIn(logs[k], g.id.reservation)
  {
    assert |logs| == |trace|;
    hide Run, Logs, L.Replay, C.GuardedHistory, C.ClosedIn, L.AttemptsOf;
    var m := if j < k then k else j;
    if C.ClosedIn(logs[k], g.id.reservation) {
      LogGrows(c, trace, logs, k, m);
      C.ClosedInMore(logs[k], logs[m], g.id.reservation);
      LogReplays(c, principal, trace, logs, m);
      C.NeverBoth(principal, logs[m], c.rules, g.id.reservation);
      SignedStaysAdmitted(c, principal, trace, j, m, g);
      assert false;
    }
  }
}
