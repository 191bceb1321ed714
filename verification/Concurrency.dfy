// Any number of engine calls over one ledger, in every interleaving of their reads and commits,
// and what holds in every state such runs reach.
module Concurrency {
  import opened Common
  import opened Core
  import opened Decisions
  import opened StateBindings
  import opened PreExecution
  import opened Engine
  import L = Ledger
  import LI = LedgerInvariant
  import LA = LedgerAccounting
  import LS = LedgerSafety

  // ---- The interleaving machine ----------------------------------------------------------------

  // What a call computes from a snapshot: nothing more to do, or one event to append.
  type Operation = L.State -> Option<L.Event>

  datatype Caller = Idle | HasRead(snapshot: L.State) | Over

  datatype World = World(log: seq<seq<L.Event>>, callers: seq<Caller>, order: seq<nat>)

  ghost predicate StateIs(principal: Party, rules: L.Rules, w: World, s: L.State) {
    L.Replay(principal, w.log, rules) == Ok(s)
  }

  ghost predicate Reads(principal: Party, rules: L.Rules, w: World, v: World, i: nat) {
    && i < |w.callers| && w.callers[i].Idle?
    && exists s :: StateIs(principal, rules, w, s) && v == w.(callers := w.callers[i := HasRead(s)])
  }

  // The caller's proposal, judged against the ledger as it is now rather than as it was read.
  ghost predicate Commits(principal: Party, rules: L.Rules, ops: seq<Operation>, w: World, v: World, i: nat) {
    && i < |w.callers| && |ops| == |w.callers| && w.callers[i].HasRead?
    && exists s :: StateIs(principal, rules, w, s) && CommitOutcome(rules, ops[i], w, v, i, w.callers[i].snapshot, s)
  }

  ghost predicate CommitOutcome(rules: L.Rules, op: Operation, w: World, v: World, i: nat, snapshot: L.State, s: L.State)
    requires i < |w.callers|
  {
    var proposal := op(snapshot);
    if proposal.None? then v == w.(callers := w.callers[i := Over])
    else if s.version != snapshot.version || s.head != snapshot.head
    then v == w.(callers := w.callers[i := Idle]) || v == w.(callers := w.callers[i := Over])
    else if L.ApplyBatch(s, [proposal.value], rules).Refused? then v == w.(callers := w.callers[i := Over])
    else v == World(w.log + [[proposal.value]], w.callers[i := Over], w.order + [i])
  }

  ghost predicate Next(principal: Party, rules: L.Rules, ops: seq<Operation>, w: World, v: World) {
    exists i: nat :: Reads(principal, rules, w, v, i) || Commits(principal, rules, ops, w, v, i)
  }

  // A run: every world follows from the one before.
  ghost predicate Run(principal: Party, rules: L.Rules, ops: seq<Operation>, trace: seq<World>) {
    && trace != []
    && trace[0] == World([], seq(|ops|, i => Idle), [])
    && forall k :: 0 < k < |trace| ==> Next(principal, rules, ops, trace[k - 1], trace[k])
  }

  // ---- The atomic specification ----------------------------------------------------------------

  // The calls of `order` run one after the other, each deciding and appending in a single step.
  function Serial(principal: Party, rules: L.Rules, ops: seq<Operation>, order: seq<nat>): Result<seq<seq<L.Event>>>
    decreases |order|
  {
    if order == [] then Ok([])
    else
      var last := order[|order| - 1];
      match Serial(principal, rules, ops, order[..|order| - 1])
      case Refused(code) => Refused(code)
      case Ok(log) =>
        match L.Replay(principal, log, rules)
        case Refused(code) => Refused(code)
        case Ok(s) =>
          if last >= |ops| || ops[last](s).None? then Refused("NOTHING_TO_APPEND") else Ok(log + [[ops[last](s).value]])
  }

  predicate OnceEach(order: seq<nat>) {
    forall i, j :: 0 <= i < j < |order| ==> order[i] != order[j]
  }

  ghost predicate Snapshotted(principal: Party, rules: L.Rules, log: seq<seq<L.Event>>, s: L.State) {
    exists k :: 0 <= k <= |log| && L.Replay(principal, log[..k], rules) == Ok(s)
  }

  ghost predicate WorldOk(principal: Party, rules: L.Rules, ops: seq<Operation>, w: World) {
    && |w.callers| == |ops|
    && L.Replay(principal, w.log, rules).Ok?
    && Serial(principal, rules, ops, w.order) == Ok(w.log)
    && OnceEach(w.order)
    && (forall k :: 0 <= k < |w.order| ==> w.order[k] < |ops| && w.callers[w.order[k]].Over?)
    && (forall i :: 0 <= i < |w.callers| && w.callers[i].HasRead? ==> Snapshotted(principal, rules, w.log, w.callers[i].snapshot))
  }

  lemma SnapshotStays(principal: Party, rules: L.Rules, log: seq<seq<L.Event>>, b: seq<L.Event>, s: L.State)
    requires Snapshotted(principal, rules, log, s)
    ensures Snapshotted(principal, rules, log + [b], s)
  {
    hide L.Replay;
    var k :| 0 <= k <= |log| && L.Replay(principal, log[..k], rules) == Ok(s);
    assert (log + [b])[..k] == log[..k];
  }

  lemma ReadKeeps(principal: Party, rules: L.Rules, ops: seq<Operation>, w: World, v: World, i: nat)
    requires WorldOk(principal, rules, ops, w) && Reads(principal, rules, w, v, i)
    ensures WorldOk(principal, rules, ops, v)
  {
    hide L.Replay, Serial;
    var s :| StateIs(principal, rules, w, s) && v == w.(callers := w.callers[i := HasRead(s)]);
    assert w.log[..|w.log|] == w.log;
  }

  // A call that ends, or goes back to reading, leaves the log alone.
  lemma CallerMoves(principal: Party, rules: L.Rules, ops: seq<Operation>, w: World, i: nat, c: Caller)
    requires WorldOk(principal, rules, ops, w) && i < |w.callers| && w.callers[i].HasRead? && !c.HasRead?
    ensures WorldOk(principal, rules, ops, w.(callers := w.callers[i := c]))
  {
    hide L.Replay, Serial, Snapshotted;
  }

  // A call that appends is the next one of the serial order.
  lemma AppendKeeps(principal: Party, rules: L.Rules, ops: seq<Operation>, w: World, i: nat, s: L.State, e: L.Event)
    requires WorldOk(principal, rules, ops, w) && i < |w.callers| && w.callers[i].HasRead? && StateIs(principal, rules, w, s)
    requires ops[i](s) == Some(e) && L.Replay(principal, w.log + [[e]], rules).Ok?
    ensures WorldOk(principal, rules, ops, World(w.log + [[e]], w.callers[i := Over], w.order + [i]))
  {
    hide L.Replay;
    var order, log, callers := w.order + [i], w.log + [[e]], w.callers[i := Over];
    assert order[..|order| - 1] == w.order && order[|order| - 1] == i;
    assert Serial(principal, rules, ops, order) == Ok(log);
    hide Serial;
    assert i !in w.order;
    forall j | 0 <= j < |callers| && callers[j].HasRead? ensures Snapshotted(principal, rules, log, callers[j].snapshot) {
      SnapshotStays(principal, rules, w.log, [e], w.callers[j].snapshot);
    }
  }

  lemma CommitKeeps(principal: Party, rules: L.Rules, ops: seq<Operation>, w: World, v: World, i: nat)
    requires WorldOk(principal, rules, ops, w) && Commits(principal, rules, ops, w, v, i)
    ensures WorldOk(principal, rules, ops, v)
  {
    hide L.Replay, L.ApplyBatch, Serial;
    var snapshot := w.callers[i].snapshot;
    var s :| StateIs(principal, rules, w, s) && CommitOutcome(rules, ops[i], w, v, i, snapshot, s);
    if v.log == w.log {
      var c := v.callers[i];
      CallerMoves(principal, rules, ops, w, i, c);
    } else {
      assert Snapshotted(principal, rules, w.log, snapshot);
      var k :| 0 <= k <= |w.log| && L.Replay(principal, w.log[..k], rules) == Ok(snapshot);
      var earlier := w.log[..k];
      SameHeadSameState(principal, earlier, w.log, rules);
      var e := ops[i](snapshot).value;
      ReplaySnoc(principal, w.log, [e], rules);
      hide WorldOk, Snapshotted;
      AppendKeeps(principal, rules, ops, w, i, s, e);
    }
  }

  // Linearizability: in every interleaving the log is that of the committed calls run atomically in commit order,
  // each commits at most once, and each event is what its call computes from the state immediately before it.
  lemma {:induction false} RunsAreSerial(principal: Party, rules: L.Rules, ops: seq<Operation>, trace: seq<World>, k: nat)
    requires Run(principal, rules, ops, trace) && k < |trace|
    ensures WorldOk(principal, rules, ops, trace[k])
    decreases k
  {
    hide WorldOk;
    if k == 0 {
      StartOk(principal, rules, ops);
    } else {
      RunsAreSerial(principal, rules, ops, trace, k - 1);
      assert Next(principal, rules, ops, trace[k - 1], trace[k]);
      var i: nat :| Reads(principal, rules, trace[k - 1], trace[k], i) || Commits(principal, rules, ops, trace[k - 1], trace[k], i);
      if Reads(principal, rules, trace[k - 1], trace[k], i) {
        ReadKeeps(principal, rules, ops, trace[k - 1], trace[k], i);
      } else {
        CommitKeeps(principal, rules, ops, trace[k - 1], trace[k], i);
      }
    }
  }

  lemma StartOk(principal: Party, rules: L.Rules, ops: seq<Operation>)
    ensures WorldOk(principal, rules, ops, World([], seq(|ops|, i => Idle), []))
  {
  }

  // ---- Attempts and never-issued closes exclude each other --------------------------------------

  // What the engine's own operations guarantee of an event at the state it is applied to: a close whose evidence
  // says "never issued" is of an active, unconsumed reservation no attempt was ever admitted for.
  predicate Guarded(s: L.State, e: L.Event) {
    e.Account? && e.evidence.NeverIssued? ==>
      && e.kind.CLOSE? && e.evidence.reservation == e.reservation
      && L.AttemptsOf(s, e.reservation) == []
      && e.reservation in s.reservations && s.reservations[e.reservation].status.ACTIVE? && Unconsumed(s.reservations[e.reservation])
  }

  // Every batch of a history, each event guarded at its own state.
  ghost predicate GuardedEvents(s: L.State, events: seq<L.Event>, version: nat, rules: L.Rules)
    decreases |events|
  {
    events == [] ||
    (Guarded(s, events[0]) && L.ApplyEvent(s, events[0], version, rules).Ok? &&
     GuardedEvents(L.ApplyEvent(s, events[0], version, rules).value, events[1..], version, rules))
  }

  ghost predicate GuardedHistory(principal: Party, log: seq<seq<L.Event>>, rules: L.Rules)
    decreases |log|
  {
    log == [] ||
    (var before := log[..|log| - 1];
     GuardedHistory(principal, before, rules) && L.Replay(principal, before, rules).Ok? &&
     var s := L.Replay(principal, before, rules).value;
     GuardedEvents(s, log[|log| - 1], s.version + 1, rules))
  }

  predicate ClosesNeverIssued(e: L.Event, r: L.ReservationId) {
    e.Account? && e.kind.CLOSE? && e.evidence.NeverIssued? && e.reservation == r
  }

  predicate ClosedIn(log: seq<seq<L.Event>>, r: L.ReservationId) {
    exists i, j :: 0 <= i < |log| && 0 <= j < |log[i]| && ClosesNeverIssued(log[i][j], r)
  }

  predicate Settled(s: L.State, r: L.ReservationId) {
    r in s.reservations && s.reservations[r].status.CLOSED? && Unconsumed(s.reservations[r]) && L.AttemptsOf(s, r) == []
  }

  // Closed stays closed, nothing is ever consumed from it again, and nothing is ever admitted for it.
  lemma SettledStays(s: L.State, e: L.Event, version: nat, rules: L.Rules, t: L.State, r: L.ReservationId)
    requires LI.Inv(s) && Settled(s, r) && L.ApplyEvent(s, e, version, rules) == Ok(t)
    ensures Settled(t, r)
  {
    hide LI.NodesOk, LI.TargetsOk, LI.PolicyOk, LI.SumsOk, LI.EpochsOk, LI.LimitsOk, LI.ActionsOk, LI.AttemptsOk, LI.ReservationsOk,
      L.ApplyAccount, L.ApplyReserve, L.CheckGrant, L.ResolveLineage, L.InstallDimensions, L.RetireDimensions,
      L.InstallNode, L.KeepsDimensions, L.ValidEvent;
    match e
    case RegisterPolicy(_, _, _) =>
    case RegisterGrant(at, grant, semantics) => var node := LI.RegisterGrantEffect(s, grant, semantics, at, version, rules);
    case Revoke(_, _) =>
    case Reserve(_, _, _, _, _) => ReserveSettled(s, e, version, rules, t, r);
    case Account(_, _, _, _, _, _) =>
      AccountingSettled(s, e, version, rules, t, r);
    case AdmitAttempt(at, admission) => LI.AdmitEffect(s, admission, at, version);
  }

  lemma ReserveSettled(s: L.State, e: L.Event, version: nat, rules: L.Rules, t: L.State, r: L.ReservationId)
    requires Settled(s, r) && e.Reserve? && L.ApplyEvent(s, e, version, rules) == Ok(t)
    ensures Settled(t, r)
  {
    hide L.DeriveLegs, L.CheckAvailability, L.ResolveLineage, L.LineageRefusal, L.ModuleAllowed, L.AddReserved, L.DemandRecords, L.AllEventLegs,
      L.LineageIds, L.ValidEvent;
  }

  lemma AccountingSettled(s: L.State, e: L.Event, version: nat, rules: L.Rules, t: L.State, r: L.ReservationId)
    requires LI.Inv(s) && Settled(s, r) && e.Account? && L.ApplyEvent(s, e, version, rules) == Ok(t)
    ensures Settled(t, r)
  {
    hide LI.NodesOk, LI.TargetsOk, LI.PolicyOk, LI.SumsOk, LI.EpochsOk, LI.LimitsOk, LI.ActionsOk, LI.AttemptsOk, L.ApplyEvent, L.ApplyAccount;
    LS.AccountStep(s, e, version, rules, t);
    var a := LA.AccountEffect(s, e);
    assert LI.ReservationOk(s.targets, e.reservation, a.r, s.lastAt.value);
    if e.reservation == r {
      LS.ConsumedMoves(s.targets, a.r.demands, e.amounts, e.kind);
    }
  }

  // A guarded never-issued close settles its reservation.
  lemma CloseSettles(s: L.State, e: L.Event, version: nat, rules: L.Rules, t: L.State, r: L.ReservationId)
    requires LI.Inv(s) && Guarded(s, e) && L.ApplyEvent(s, e, version, rules) == Ok(t) && ClosesNeverIssued(e, r)
    ensures Settled(t, r)
  {
    hide LI.NodesOk, LI.TargetsOk, LI.PolicyOk, LI.SumsOk, LI.EpochsOk, LI.LimitsOk, LI.ActionsOk, LI.AttemptsOk, L.ApplyEvent;
    LS.AccountStep(s, e, version, rules, t);
    var a := LA.AccountEffect(s, e);
    assert LI.ReservationOk(s.targets, e.reservation, a.r, s.lastAt.value);
    LS.ConsumedMoves(s.targets, a.r.demands, e.amounts, e.kind);
  }

  lemma {:induction false} EventsSettle(s: L.State, events: seq<L.Event>, version: nat, rules: L.Rules, r: L.ReservationId)
    requires LI.Inv(s) && L.ApplyEvents(s, events, version, rules).Ok? && GuardedEvents(s, events, version, rules)
    requires Settled(s, r) || exists j :: 0 <= j < |events| && ClosesNeverIssued(events[j], r)
    ensures Settled(L.ApplyEvents(s, events, version, rules).value, r)
    decreases |events|
  {
    hide LI.Inv, L.ApplyEvent, Guarded, Settled, ClosesNeverIssued;
    if events != [] {
      var t := L.ApplyEvent(s, events[0], version, rules).value;
      LS.EventKeeps(s, events[0], version, rules);
      if Settled(s, r) {
        SettledStays(s, events[0], version, rules, t, r);
      } else {
        var j :| 0 <= j < |events| && ClosesNeverIssued(events[j], r);
        if j == 0 {
          CloseSettles(s, events[0], version, rules, t, r);
        } else {
          assert ClosesNeverIssued(events[1..][j - 1], r);
        }
      }
      EventsSettle(t, events[1..], version, rules, r);
    }
  }

  lemma {:induction false} HistorySettles(principal: Party, log: seq<seq<L.Event>>, rules: L.Rules, r: L.ReservationId)
    requires L.Replay(principal, log, rules).Ok? && GuardedHistory(principal, log, rules) && ClosedIn(log, r)
    ensures Settled(L.Replay(principal, log, rules).value, r)
    decreases |log|
  {
    hide LI.Inv, L.ApplyEvents, GuardedEvents, Settled, ClosesNeverIssued;
    var before, last := log[..|log| - 1], log[|log| - 1];
    var s, t := L.Replay(principal, before, rules).value, L.Replay(principal, log, rules).value;
    LS.ReplayKeeps(principal, before, rules);
    var u := LS.BatchEffect(s, last, rules, t);
    var i, j :| 0 <= i < |log| && 0 <= j < |log[i]| && ClosesNeverIssued(log[i][j], r);
    if i < |before| {
      assert before[i] == log[i];
      HistorySettles(principal, before, rules, r);
    }
    EventsSettle(s, last, s.version + 1, rules, r);
    RestampSettled(u, t, r);
  }

  lemma RestampSettled(u: L.State, t: L.State, r: L.ReservationId)
    requires Settled(u, r) && t.reservations == u.reservations && t.reservationAttempts == u.reservationAttempts
    ensures Settled(t, r)
  {
  }

  // In every state engine histories reach, no generation has both a never-issued close and an admitted attempt.
  lemma NeverBoth(principal: Party, log: seq<seq<L.Event>>, rules: L.Rules, r: L.ReservationId)
    requires L.Replay(principal, log, rules).Ok? && GuardedHistory(principal, log, rules)
    ensures !(ClosedIn(log, r) && L.AttemptsOf(L.Replay(principal, log, rules).value, r) != [])
    ensures |L.AttemptsOf(L.Replay(principal, log, rules).value, r)| <= 1
  {
    hide L.Replay, GuardedHistory, ClosedIn,
      LI.NodesOk, LI.TargetsOk, LI.PolicyOk, LI.SumsOk, LI.EpochsOk, LI.LimitsOk, LI.ActionsOk, LI.ReservationsOk;
    if ClosedIn(log, r) {
      HistorySettles(principal, log, rules, r);
    }
    LS.ReplayKeeps(principal, log, rules);
    var s := L.Replay(principal, log, rules).value;
    if r in s.reservationAttempts {
      assert |s.reservationAttempts[r]| == 1;
    }
  }

  // ---- The engine's operations are guarded -----------------------------------------------------

  predicate GuardedOperation(s: L.State, proposal: Option<L.Event>) {
    proposal.Some? ==> Guarded(s, proposal.value)
  }

  function Proposal<T>(step: Step<T>): Option<L.Event> {
    if step.Propose? then Some(step.event) else None
  }

  lemma AuthorizeIsGuarded(env: Env, s: L.State, req: Request)
    ensures GuardedOperation(s, Proposal(AuthorizeStep(env, s, req)))
  {
    hide Decide;
    if Decide(env, s, req).Ok? {
      DecisionEvent(env, s, req, Decide(env, s, req).value);
    }
  }

  lemma CloseIsGuarded(env: Env, s: L.State, rec: Record, req: Request)
    ensures GuardedOperation(s, Proposal(CloseStep(env, s, rec, req)))
  {
    hide Revalidate, L.ApplyBatch;
  }

  lemma AdmitIsGuarded(env: Env, s: L.State, rec: Record, areq: AttemptRequest, subject: string)
    ensures GuardedOperation(s, Proposal(AdmitStep(env, s, rec, areq, subject)))
  {
    hide Revalidate, L.ApplyBatch, Checked;
  }

  lemma RegisterIsGuarded(env: Env, s: L.State, derive: L.State -> Result<L.Event>)
    requires derive(s).Ok? ==> derive(s).value.RegisterPolicy? || derive(s).value.RegisterGrant?
    ensures GuardedOperation(s, Proposal(RegisterStep(env, s, derive)))
  {
    hide L.ApplyEvent;
  }

  ghost predicate AllGuarded(ops: seq<Operation>) {
    forall i, s :: 0 <= i < |ops| ==> GuardedOperation(s, ops[i](s))
  }

  ghost predicate Authorizes(env: Env, op: Operation, req: Request) {
    forall s :: op(s) == Proposal(AuthorizeStep(env, s, req))
  }

  ghost predicate Closes(env: Env, op: Operation, rec: Record, req: Request) {
    forall s :: op(s) == Proposal(CloseStep(env, s, rec, req))
  }

  ghost predicate AdmitsAttempt(env: Env, op: Operation, rec: Record, areq: AttemptRequest, subject: string) {
    forall s :: op(s) == Proposal(AdmitStep(env, s, rec, areq, subject))
  }

  ghost predicate Registers(env: Env, op: Operation, derive: L.State -> Result<L.Event>) {
    && (forall s :: derive(s).Ok? ==> derive(s).value.RegisterPolicy? || derive(s).value.RegisterGrant?)
    && forall s :: op(s) == Proposal(RegisterStep(env, s, derive))
  }

  // What one call of the engine computes, under any configuration.
  ghost predicate EngineOperation(op: Operation) {
    || (exists env, req :: Authorizes(env, op, req))
    || (exists env, rec, req :: Closes(env, op, rec, req))
    || (exists env, rec, areq, subject :: AdmitsAttempt(env, op, rec, areq, subject))
    || (exists env, derive :: Registers(env, op, derive))
  }

  lemma OperationIsGuarded(op: Operation, s: L.State)
    requires EngineOperation(op)
    ensures GuardedOperation(s, op(s))
  {
    hide AuthorizeStep, CloseStep, AdmitStep, RegisterStep, GuardedOperation;
    if env, req :| Authorizes(env, op, req) {
      AuthorizeIsGuarded(env, s, req);
    } else if env, rec, req :| Closes(env, op, rec, req) {
      CloseIsGuarded(env, s, rec, req);
    } else if env, rec, areq, subject :| AdmitsAttempt(env, op, rec, areq, subject) {
      AdmitIsGuarded(env, s, rec, areq, subject);
    } else {
      var env, derive :| Registers(env, op, derive);
      RegisterIsGuarded(env, s, derive);
    }
  }

  // Calls of the engine, in any number, keep the rule.
  lemma EngineCallsAreGuarded(ops: seq<Operation>)
    requires forall i :: 0 <= i < |ops| ==> EngineOperation(ops[i])
    ensures AllGuarded(ops)
  {
    hide EngineOperation, GuardedOperation;
    forall i, s | 0 <= i < |ops| ensures GuardedOperation(s, ops[i](s)) {
      OperationIsGuarded(ops[i], s);
    }
  }

  // Every history produced by guarded operations alone is guarded.
  lemma {:induction false} SerialIsGuarded(principal: Party, rules: L.Rules, ops: seq<Operation>, order: seq<nat>, log: seq<seq<L.Event>>)
    requires AllGuarded(ops) && Serial(principal, rules, ops, order) == Ok(log) && L.Replay(principal, log, rules).Ok?
    ensures GuardedHistory(principal, log, rules)
    decreases |order|
  {
    hide L.ApplyEvent, Guarded;
    if order != [] {
      var last := order[|order| - 1];
      var earlier := Serial(principal, rules, ops, order[..|order| - 1]).value;
      var s := L.Replay(principal, earlier, rules).value;
      var e := ops[last](s).value;
      assert log[..|log| - 1] == earlier && log[|log| - 1] == [e];
      SerialIsGuarded(principal, rules, ops, order[..|order| - 1], earlier);
      assert GuardedOperation(s, ops[last](s));
      SingleBatch(s, e, rules);
      assert [e][0] == e && [e][1..] == [];
      assert GuardedEvents(L.ApplyEvent(s, e, s.version + 1, rules).value, [], s.version + 1, rules);
    }
  }

  // The same, for every interleaving of any number of engine calls.
  lemma ConcurrentNeverBoth(principal: Party, rules: L.Rules, ops: seq<Operation>, trace: seq<World>, k: nat, r: L.ReservationId)
    requires Run(principal, rules, ops, trace) && k < |trace| && AllGuarded(ops)
    ensures L.Replay(principal, trace[k].log, rules).Ok?
    ensures !(ClosedIn(trace[k].log, r) && L.AttemptsOf(L.Replay(principal, trace[k].log, rules).value, r) != [])
    ensures |L.AttemptsOf(L.Replay(principal, trace[k].log, rules).value, r)| <= 1
  {
    hide L.Replay, GuardedHistory, ClosedIn, Serial, L.AttemptsOf;
    RunsAreSerial(principal, rules, ops, trace, k);
    SerialIsGuarded(principal, rules, ops, trace[k].order, trace[k].log);
    NeverBoth(principal, trace[k].log, rules, r);
  }

  // ---- Closing twice, and lifetimes --------------------------------------------------------------

  // After its own commit a close has nothing left to do: repeating it, with any request, writes nothing.
  lemma CloseIsIdempotent(env: Env, s: L.State, rec: Record, req: Request, again: Request, t: L.State)
    requires LI.Inv(s) && CloseStep(env, s, rec, req).Propose?
    requires L.ApplyBatch(s, [CloseStep(env, s, rec, req).event], env.rules) == Ok(t)
    ensures CloseStep(env, t, rec, again) == Done(ALREADY_CLOSED)
  {
    hide Revalidate, L.ApplyBatch, L.ApplyEvent,
      LI.NodesOk, LI.TargetsOk, LI.PolicyOk, LI.SumsOk, LI.EpochsOk, LI.LimitsOk, LI.AttemptsOk, LI.ActionsOk;
    var e := CloseStep(env, s, rec, req).event;
    var r := s.reservations[rec.reservation];
    assert LI.ReservationOk(s.targets, rec.reservation, r, s.lastAt.value);
    assert e == LS.CloseOf(r, e.at, e.evidence);
    SingleBatch(s, e, env.rules);
    var u := L.ApplyEvent(s, e, s.version + 1, env.rules).value;
    LS.CloseReleases(s, r, e.at, e.evidence, s.version + 1, env.rules, u, L.NodeKey(r.authority, ""), s.lastAt.value);
    LS.AccountStep(s, e, s.version + 1, env.rules, u);
    var a := LA.AccountEffect(s, e);
    LS.CloseMovesOnlyReleased(s.targets, r.demands, e.amounts);
    CloseLeavesAttempts(s, e, s.version + 1, env.rules, u);
  }

  lemma CloseLeavesAttempts(s: L.State, e: L.Event, version: nat, rules: L.Rules, u: L.State)
    requires e.Account? && L.ApplyEvent(s, e, version, rules) == Ok(u)
    ensures u.reservationAttempts == s.reservationAttempts
  {
    LS.AccountStep(s, e, version, rules, u);
    var a := LA.AccountEffect(s, e);
  }

  // A record that names its own reservation, as every record built after a commit does.
  predicate NamesItsReservation(rec: Record) {
    rec.reservation == L.ReservationId(rec.action.id, rec.generation)
  }

  lemma RecordNames(d: Decision, committed: L.State, rec: Record)
    requires RecordOf(d, committed) == Ok(rec)
    ensures NamesItsReservation(rec)
  {
    hide ModulesOf;
  }

  // What a close proposes is a never-issued close of its reservation.
  lemma ProposedClose(env: Env, s: L.State, rec: Record, req: Request)
    requires CloseStep(env, s, rec, req).Propose?
    ensures ClosesNeverIssued(CloseStep(env, s, rec, req).event, rec.reservation)
  {
    hide Revalidate, L.ApplyBatch;
  }

  // Whatever came after it, a never-issued close is never written twice: over every guarded history with one, and with
  // any request, closing again has nothing left to do.
  lemma ClosedForGood(env: Env, principal: Party, log: seq<seq<L.Event>>, rules: L.Rules, rec: Record, again: Request)
    requires L.Replay(principal, log, rules).Ok? && GuardedHistory(principal, log, rules)
    requires ClosedIn(log, rec.reservation) && NamesItsReservation(rec)
    ensures CloseStep(env, L.Replay(principal, log, rules).value, rec, again) == Done(ALREADY_CLOSED)
  {
    hide L.Replay, GuardedHistory, ClosedIn, Revalidate, L.ApplyBatch, LI.NodesOk, LI.TargetsOk, LI.PolicyOk, LI.SumsOk, LI.EpochsOk, LI.LimitsOk,
      LI.ActionsOk, LI.AttemptsOk;
    HistorySettles(principal, log, rules, rec.reservation);
    LS.ReplayKeeps(principal, log, rules);
    var s := L.Replay(principal, log, rules).value;
    assert LI.ReservationOk(s.targets, rec.reservation, s.reservations[rec.reservation], s.lastAt.value);
  }

  lemma {:induction false} LogsGrow(principal: Party, rules: L.Rules, ops: seq<Operation>, trace: seq<World>, j: nat, k: nat)
    requires Run(principal, rules, ops, trace) && j <= k < |trace|
    ensures trace[j].log <= trace[k].log
    decreases k
  {
    hide L.Replay, L.ApplyBatch;
    if j < k {
      LogsGrow(principal, rules, ops, trace, j, k - 1);
      assert Next(principal, rules, ops, trace[k - 1], trace[k]);
    }
  }

  lemma ClosedInMore(log: seq<seq<L.Event>>, more: seq<seq<L.Event>>, r: L.ReservationId)
    requires ClosedIn(log, r) && log <= more
    ensures ClosedIn(more, r)
  {
    var i, j :| 0 <= i < |log| && 0 <= j < |log[i]| && ClosesNeverIssued(log[i][j], r);
    assert more[i] == log[i];
  }

  // In every interleaving of engine calls: from the world a never-issued close is in the log, in that and every later
  // world, closing that reservation again writes nothing.
  lemma CloseIsIdempotentForGood(env: Env, principal: Party, rules: L.Rules, ops: seq<Operation>, trace: seq<World>, j: nat, k: nat,
                                 rec: Record, again: Request)
    requires Run(principal, rules, ops, trace) && j <= k < |trace| && AllGuarded(ops)
    requires ClosedIn(trace[j].log, rec.reservation) && NamesItsReservation(rec)
    ensures L.Replay(principal, trace[k].log, rules).Ok?
    ensures CloseStep(env, L.Replay(principal, trace[k].log, rules).value, rec, again) == Done(ALREADY_CLOSED)
  {
    hide L.Replay, GuardedHistory, ClosedIn, Serial, Run, CloseStep;
    RunsAreSerial(principal, rules, ops, trace, k);
    SerialIsGuarded(principal, rules, ops, trace[k].order, trace[k].log);
    LogsGrow(principal, rules, ops, trace, j, k);
    ClosedInMore(trace[j].log, trace[k].log, rec.reservation);
    ClosedForGood(env, principal, trace[k].log, rules, rec, again);
  }

  // A committed call that only ever proposes never-issued closes of one reservation has put one in the log.
  lemma {:induction false} CommittedCloses(principal: Party, rules: L.Rules, ops: seq<Operation>, order: seq<nat>, log: seq<seq<L.Event>>,
                                           i: nat, r: L.ReservationId)
    requires Serial(principal, rules, ops, order) == Ok(log) && i in order && i < |ops|
    requires forall s :: ops[i](s).Some? ==> ClosesNeverIssued(ops[i](s).value, r)
    ensures ClosedIn(log, r)
    decreases |order|
  {
    hide L.Replay, ClosesNeverIssued;
    var front, last := order[..|order| - 1], order[|order| - 1];
    var earlier := Serial(principal, rules, ops, front).value;
    var s := L.Replay(principal, earlier, rules).value;
    if last == i {
      var e := ops[i](s).value;
      assert log[|earlier|][0] == e;
    } else {
      CommittedCloses(principal, rules, ops, front, earlier, i, r);
      ClosedInMore(earlier, log, r);
    }
  }

  // In every interleaving of engine calls: once a close has committed, repeating it, with any request and at any later
  // time, writes nothing.
  lemma CommittedCloseIsFinal(env: Env, principal: Party, rules: L.Rules, ops: seq<Operation>, trace: seq<World>, j: nat, k: nat, i: nat,
                              d: Decision, committed: L.State, rec: Record, req: Request, again: Request)
    requires Run(principal, rules, ops, trace) && j <= k < |trace| && forall n :: 0 <= n < |ops| ==> EngineOperation(ops[n])
    requires RecordOf(d, committed) == Ok(rec) && i < |ops| && Closes(env, ops[i], rec, req) && i in trace[j].order
    ensures L.Replay(principal, trace[k].log, rules).Ok?
    ensures CloseStep(env, L.Replay(principal, trace[k].log, rules).value, rec, again) == Done(ALREADY_CLOSED)
  {
    hide L.Replay, ClosedIn, Serial, Run, CloseStep, RecordOf, EngineOperation, AllGuarded;
    EngineCallsAreGuarded(ops);
    RecordNames(d, committed, rec);
    RunsAreSerial(principal, rules, ops, trace, j);
    forall s | ops[i](s).Some? ensures ClosesNeverIssued(ops[i](s).value, rec.reservation) {
      ProposedClose(env, s, rec, req);
    }
    CommittedCloses(principal, rules, ops, trace[j].order, trace[j].log, i, rec.reservation);
    CloseIsIdempotentForGood(env, principal, rules, ops, trace, j, k, rec, again);
  }

  // attempt end <= revalidated end <= record end, and the attempt is not already over when it is admitted.
  lemma AttemptWithinAuthorization(env: Env, s: L.State, rec: Record, areq: AttemptRequest, subject: string)
    requires AdmitStep(env, s, rec, areq, subject).Propose?
    ensures var p := AdmitStep(env, s, rec, areq, subject);
            && p.result.ADMITTED? && p.event == L.AdmitAttempt(p.event.at, p.result.admission)
            && p.event.at == areq.revalidation.context.evaluationTime
            && p.event.at < p.result.admission.validUntil <= p.result.end <= rec.validUntil
            && p.result.admission.attempt == L.DerivedAttemptId(p.result.admission)
            && p.result.admission.reservation == rec.reservation && p.result.admission.ordinal == 1
            && L.AttemptsOf(s, rec.reservation) == []
            && p.result.admission.artifact == areq.artifact && p.result.admission.slot == areq.slot
            && ResolveAuthority(s, rec.action, p.event.at).Ok?
  {
    hide L.ApplyBatch, Checked, ResolveAuthority, Revalidate;
    var v := Revalidate(env, s, rec, areq.revalidation).value;
    RevalidationBounds(env, s, rec, areq.revalidation, v);
  }

  lemma RecordKeepsEnd(d: Decision, committed: L.State, rec: Record)
    requires RecordOf(d, committed) == Ok(rec)
    ensures rec.validUntil == d.validUntil && rec.action == d.action && rec.bindings == d.bindings
  {
    hide ModulesOf;
  }

  // Together with the decision: no attempt outlives its action, any grant of the lineage it was decided on, or a bounded binding.
  lemma AttemptWithinDecision(env: Env, s: L.State, req: Request, d: Decision, committed: L.State, rec: Record,
                              now: L.State, areq: AttemptRequest, subject: string, lineage: seq<L.NodeRecord>)
    requires Decide(env, s, req) == Ok(d) && RecordOf(d, committed) == Ok(rec)
    requires ResolveAuthority(s, req.action, req.context.evaluationTime) == Ok(lineage)
    requires AdmitStep(env, now, rec, areq, subject).Propose?
    ensures AdmitStep(env, now, rec, areq, subject).result.ADMITTED?
    ensures var end := AdmitStep(env, now, rec, areq, subject).result.admission.validUntil;
            && end <= req.action.expiresAt
            && (forall k :: 0 <= k < |AllEnds(d.bindings)| ==> end <= AllEnds(d.bindings)[k])
            && (forall i :: 0 <= i < |lineage| ==> end <= lineage[i].grant.expiresAt)
  {
    hide Decide, AdmitStep, ResolveAuthority, RecordOf, AllEnds;
    DecisionLifetime(env, s, req, d);
    AttemptWithinAuthorization(env, now, rec, areq, subject);
    RecordKeepsEnd(d, committed, rec);
  }
}
