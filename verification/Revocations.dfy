// What the ledger never forgets, and what a revocation ends for good, over every accepted history
// (packages/ledger/src/reducer.ts:215-263, 457-534; graph.ts:59-147).
module Revocations {
  import opened Common
  import opened Core
  import opened Ledger
  import opened LedgerInvariant
  import opened LedgerReserve
  import opened Lineages
  import LA = LedgerAccounting
  import Acceptance
  import Charging
  import LS = LedgerSafety

  // ---- Which grant an event acts under -----------------------------------------------------------

  // The grant an accepted event needs to be usable: that of its plan, of its reservation, or of the child's parent.
  function ActsUnder(s: State, e: Event): Option<AuthorityId> {
    match e
    case RegisterGrant(_, g, _) => if g.lineage.DELEGATION? then Some(g.lineage.parent) else None
    case Reserve(_, plan, _, _, _) => Some(plan.authority)
    case AdmitAttempt(_, a) => if a.reservation in s.reservations then Some(s.reservations[a.reservation].authority) else None
    case _ => None
  }

  // Reserving, delegating and admitting an attempt each need a valid path from the grant acted under to the root.
  lemma NeedsUsable(s: State, e: Event, version: nat, rules: Rules, t: State)
    requires NodesOk(s.principal, s.nodes, s.targets) && ApplyEvent(s, e, version, rules) == Ok(t)
    ensures ActsUnder(s, e).Some? ==> exists path :: Usable(s, ActsUnder(s, e).value, path, e.at)
    ensures e.AdmitAttempt? ==> ActsUnder(s, e).Some?
  {
    hide ResolveLineage, LineageRefusal, NodesOk, Usable, DeriveLegs, CheckAvailability, CheckDelegation, ValidEvent, AddReserved, DemandRecords;
    match e
    case RegisterGrant(at, g, semantics) =>
      if g.lineage.DELEGATION? {
        UsableIs(s, g.lineage.parent, ResolveLineage(s.nodes, g.lineage.parent, MAX_LINEAGE_LENGTH).value, at);
      }
    case Reserve(at, plan, _, _, _) =>
      DerivedFacts(s, plan, at);
      UsableIs(s, plan.authority, ResolveLineage(s.nodes, plan.authority, MAX_LINEAGE_LENGTH).value, at);
    case AdmitAttempt(at, a) =>
      var leaf := s.reservations[a.reservation].authority;
      UsableIs(s, leaf, ResolveLineage(s.nodes, leaf, MAX_LINEAGE_LENGTH).value, at);
    case _ =>
  }

  // ---- Descent -----------------------------------------------------------------------------------

  // An identity is that of another or of a grant delegated below it.
  predicate Under(id: AuthorityId, ancestor: AuthorityId)
    decreases id
  {
    id == ancestor || (id.preimage.lineage.DELEGATION? && Under(id.preimage.lineage.parent, ancestor))
  }

  lemma {:induction false} OnPath(principal: Party, nodes: map<AuthorityId, NodeRecord>, targets: map<TargetKey, Balance>, leaf: AuthorityId,
                                  path: seq<NodeRecord>, ancestor: AuthorityId)
    requires NodesOk(principal, nodes, targets) && PathFrom(nodes, leaf, path)
    ensures Under(leaf, ancestor) <==> exists i :: 0 <= i < |path| && path[i].id == ancestor
    decreases |path|
  {
    assert path[0].grant == leaf.preimage;
    if leaf.preimage.lineage.DELEGATION? {
      PathTail(nodes, leaf, path);
      var parent, rest := leaf.preimage.lineage.parent, path[1..];
      OnPath(principal, nodes, targets, parent, rest, ancestor);
      if Under(parent, ancestor) {
        var i :| 0 <= i < |rest| && rest[i].id == ancestor;
        assert path[i + 1].id == ancestor;
      }
      if i :| 0 < i < |path| && path[i].id == ancestor {
        assert rest[i - 1].id == ancestor;
      }
    } else {
      assert |path| > 1 ==> NamesParent(path[0], path[1]);
    }
  }

  predicate Revoked(s: State, id: AuthorityId) {
    id in s.nodes && s.nodes[id].revokedAt.Some?
  }

  // Nothing is done under a revoked grant or under any grant below it.
  lemma RevokedStopsAll(s: State, e: Event, version: nat, rules: Rules, t: State, target: AuthorityId)
    requires NodesOk(s.principal, s.nodes, s.targets) && ApplyEvent(s, e, version, rules) == Ok(t)
    requires Revoked(s, target)
    ensures ActsUnder(s, e).Some? ==> !Under(ActsUnder(s, e).value, target)
  {
    hide ApplyEvent, ActsUnder, NodesOk;
    NeedsUsable(s, e, version, rules, t);
    if ActsUnder(s, e).Some? {
      var leaf := ActsUnder(s, e).value;
      var path: seq<NodeRecord> :| Usable(s, leaf, path, e.at);
      OnPath(s.principal, s.nodes, s.targets, leaf, path, target);
      forall i | 0 <= i < |path| ensures path[i].id != target {
        assert Live(s.principal, path[i], e.at);
      }
    }
  }

  // ---- What no event forgets ---------------------------------------------------------------------

  // Registered grants keep their terms and their revocations, reservations keep what they were made under.
  ghost predicate Remembers(s: State, t: State) {
    && (forall id: AuthorityId :: id in s.nodes ==>
          id in t.nodes && t.nodes[id].grant == s.nodes[id].grant && (s.nodes[id].revokedAt.Some? ==> t.nodes[id] == s.nodes[id]))
    && (forall r: ReservationId :: r in s.reservations ==> r in t.reservations && SameMaking(s.reservations[r], t.reservations[r]))
    && (s.policy.Some? ==> t.policy.Some? && (t.policy == s.policy || s.policy.value.policy.sequence < t.policy.value.policy.sequence))
  }

  predicate SameMaking(r: Reservation, t: Reservation) {
    && t.id == r.id && t.action == r.action && t.generation == r.generation && t.authority == r.authority && t.lineage == r.lineage
    && t.policy == r.policy && t.moduleRef == r.moduleRef && t.implementation == r.implementation
    && t.committedAt == r.committedAt && t.reservedAt == r.reservedAt
  }

  lemma RemembersOn(s: State, t: State, u: State)
    requires Remembers(s, t) && Remembers(t, u)
    ensures Remembers(s, u)
  {
  }

  lemma EventRemembers(s: State, e: Event, version: nat, rules: Rules, t: State)
    requires Inv(s) && ApplyEvent(s, e, version, rules) == Ok(t)
    ensures Remembers(s, t)
  {
    hide NodesOk, TargetsOk, PolicyOk, SumsOk, EpochsOk, LimitsOk, ActionsOk, AttemptsOk, ReservationsOk, ApplyAccount, ApplyReserve, ApplyRevoke,
      CheckGrant, InstallDimensions, RetireDimensions, InstallNode, KeepsDimensions, ValidEvent, ApplyAdmit;
    match e
    case RegisterGrant(at, g, semantics) => var node := RegisterGrantEffect(s, g, semantics, at, version, rules);
    case Revoke(at, r) => RevokeRemembers(s, r, at, version);
    case Reserve(_, _, _, _, _) => ReserveRemembers(s, e, version, rules, t);
    case Account(_, _, _, _, _, _) => AccountRemembers(s, e);
    case AdmitAttempt(at, a) => AdmitEffect(s, a, at, version);
    case RegisterPolicy(_, _, _) =>
  }

  lemma ReserveRemembers(s: State, e: Event, version: nat, rules: Rules, t: State)
    requires Inv(s) && ApplyEvent(s, e, version, rules) == Ok(t) && e.Reserve?
    ensures Remembers(s, t)
  {
    hide NodesOk, TargetsOk, PolicyOk, SumsOk, EpochsOk, LimitsOk, ActionsOk, AttemptsOk, ReservationsOk, ApplyReserve, ValidEvent, IsEntry,
      AddReserved;
    LS.ReserveStep(s, e, version, rules, t);
    var x := ReserveEffect(s, e, version);
  }

  lemma RevokeRemembers(s: State, r: Revocation, at: int, version: nat)
    requires NodesOk(s.principal, s.nodes, s.targets) && ApplyRevoke(s, r, at, version).Ok?
    ensures Remembers(s, ApplyRevoke(s, r, at, version).value)
    ensures Revoked(ApplyRevoke(s, r, at, version).value, r.target)
  {
    var lineage := ResolveLineage(s.nodes, r.target, MAX_LINEAGE_LENGTH).value;
    LineageRegistered(s.principal, s.nodes, s.targets, r.target, MAX_LINEAGE_LENGTH);
    assert lineage[0] == s.nodes[r.target] && lineage[0].revokedAt.None?;
  }

  lemma AccountRemembers(s: State, e: Event)
    requires e.Account? && ApplyAccount(s, e).Ok? && Inv(s)
    ensures Remembers(s, ApplyAccount(s, e).value)
  {
    hide NodesOk, TargetsOk, PolicyOk, SumsOk, EpochsOk, LimitsOk, ActionsOk, AttemptsOk, ApplyAccount, MoveDemands;
    var a := LA.AccountEffect(s, e);
    assert ReservationOk(s.targets, e.reservation, a.r, s.lastAt.value);
  }

  // ---- Every moment of a history -----------------------------------------------------------------

  // The state just before event `i` of batch `b`.
  function Before(principal: Party, log: seq<seq<Event>>, b: nat, i: nat, rules: Rules): Result<State>
    requires b < |log| && i <= |log[b]|
  {
    match Replay(principal, log[..b], rules)
    case Refused(code) => Refused(code)
    case Ok(s) => ApplyEvents(s, log[b][..i], s.version + 1, rules)
  }

  // One event of the history comes before another.
  predicate Earlier(b: nat, i: nat, c: nat, j: nat) {
    b < c || (b == c && i < j)
  }

  lemma {:induction false} ReplayPrefix(principal: Party, log: seq<seq<Event>>, b: nat, rules: Rules)
    requires Replay(principal, log, rules).Ok? && b <= |log|
    ensures Replay(principal, log[..b], rules).Ok?
    decreases |log|
  {
    hide ApplyBatch;
    if b == |log| {
      assert log[..b] == log;
    } else {
      var front := log[..|log| - 1];
      ReplayPrefix(principal, front, b, rules);
      assert front[..b] == log[..b];
    }
  }

  lemma {:induction false} EventsSnoc(s: State, events: seq<Event>, i: nat, version: nat, rules: Rules)
    requires i < |events| && ApplyEvents(s, events, version, rules).Ok?
    ensures ApplyEvents(s, events[..i], version, rules).Ok? && ApplyEvents(s, events[..i + 1], version, rules).Ok?
    ensures ApplyEvent(ApplyEvents(s, events[..i], version, rules).value, events[i], version, rules) == ApplyEvents(s, events[..i + 1], version, rules)
    decreases |events|
  {
    hide ApplyEvent;
    var first := ApplyEvent(s, events[0], version, rules).value;
    var next := events[..i + 1];
    assert next[0] == events[0] && next[1..] == events[1..][..i];
    if i == 0 {
      assert next[1..] == [] && events[..0] == [];
      assert ApplyEvents(first, [], version, rules) == Ok(first);
    } else {
      EventsSnoc(first, events[1..], i - 1, version, rules);
      assert events[..i][0] == events[0] && events[..i][1..] == events[1..][..i - 1];
      assert events[1..][i - 1] == events[i];
    }
  }

  // Each event of an accepted history was accepted at its own moment.
  lemma Moment(principal: Party, log: seq<seq<Event>>, b: nat, i: nat, rules: Rules)
    requires Replay(principal, log, rules).Ok? && b < |log| && i < |log[b]|
    ensures Before(principal, log, b, i, rules).Ok? && Before(principal, log, b, i + 1, rules).Ok?
    ensures ApplyEvent(Before(principal, log, b, i, rules).value, log[b][i], b + 1, rules) == Before(principal, log, b, i + 1, rules)
    ensures Inv(Before(principal, log, b, i, rules).value)
  {
    hide ApplyEvents, Inv, Replay;
    ReplayPrefix(principal, log, b, rules);
    var s := Replay(principal, log[..b], rules).value;
    BatchAt(principal, log, b, rules);
    LS.HeadShape(principal, log[..b], rules);
    EventsSnoc(s, log[b], i, s.version + 1, rules);
    LS.ReplayKeeps(principal, log[..b], rules);
    LS.EventsKeep(s, log[b][..i], s.version + 1, rules);
  }

  lemma BatchAt(principal: Party, log: seq<seq<Event>>, b: nat, rules: Rules)
    requires Replay(principal, log, rules).Ok? && b < |log|
    ensures Replay(principal, log[..b], rules).Ok? && Replay(principal, log[..b + 1], rules).Ok?
    ensures var s := Replay(principal, log[..b], rules).value;
            && ApplyBatch(s, log[b], rules) == Replay(principal, log[..b + 1], rules)
            && ApplyEvents(s, log[b], s.version + 1, rules).Ok?
  {
    hide ApplyEvents;
    ReplayPrefix(principal, log, b, rules);
    ReplayPrefix(principal, log, b + 1, rules);
    var next := log[..b + 1];
    assert next[..|next| - 1] == log[..b] && next[|next| - 1] == log[b];
  }

  // From any moment to any later one nothing is forgotten.
  lemma {:induction false} HistoryRemembers(principal: Party, log: seq<seq<Event>>, b: nat, i: nat, c: nat, j: nat, rules: Rules)
    requires Replay(principal, log, rules).Ok? && b <= c < |log| && i <= |log[b]| && j <= |log[c]|
    requires Earlier(b, i, c, j) || (b == c && i == j)
    ensures Before(principal, log, b, i, rules).Ok? && Before(principal, log, c, j, rules).Ok?
    ensures Remembers(Before(principal, log, b, i, rules).value, Before(principal, log, c, j, rules).value)
    decreases c, j
  {
    hide ApplyEvent, ApplyEvents, Inv, Replay, Remembers, Before;
    if b == c && i == j {
      MomentOk(principal, log, b, i, rules);
      SelfRemembers(Before(principal, log, b, i, rules).value);
    } else if j > 0 {
      HistoryRemembers(principal, log, b, i, c, j - 1, rules);
      Moment(principal, log, c, j - 1, rules);
      var last, now := Before(principal, log, c, j - 1, rules).value, Before(principal, log, c, j, rules).value;
      EventRemembers(last, log[c][j - 1], c + 1, rules, now);
      RemembersOn(Before(principal, log, b, i, rules).value, last, now);
    } else {
      HistoryRemembers(principal, log, b, i, c - 1, |log[c - 1]|, rules);
      var last := Before(principal, log, c - 1, |log[c - 1]|, rules).value;
      BatchTurns(principal, log, c, rules);
      RemembersOn(Before(principal, log, b, i, rules).value, last, Before(principal, log, c, 0, rules).value);
    }
  }

  lemma SelfRemembers(s: State)
    ensures Remembers(s, s)
  {
  }

  lemma MomentOk(principal: Party, log: seq<seq<Event>>, b: nat, i: nat, rules: Rules)
    requires Replay(principal, log, rules).Ok? && b < |log| && i <= |log[b]|
    ensures Before(principal, log, b, i, rules).Ok?
  {
    hide ApplyEvents, Replay, Before;
    if i < |log[b]| {
      Moment(principal, log, b, i, rules);
    } else {
      BatchAt(principal, log, b, rules);
      assert log[b][..i] == log[b];
      assert Before(principal, log, b, i, rules).Ok? by {
        BatchEnd(principal, log, b, rules);
      }
    }
  }

  lemma BatchEnd(principal: Party, log: seq<seq<Event>>, b: nat, rules: Rules)
    requires Replay(principal, log, rules).Ok? && b < |log|
    ensures var s := Replay(principal, log[..b], rules); s.Ok? && Before(principal, log, b, |log[b]|, rules) == ApplyEvents(s.value, log[b], s.value.version + 1, rules)
    ensures Before(principal, log, b, |log[b]|, rules).Ok?
  {
    hide ApplyEvents, Replay;
    BatchAt(principal, log, b, rules);
    assert log[b][..|log[b]|] == log[b];
  }

  lemma BatchTurns(principal: Party, log: seq<seq<Event>>, c: nat, rules: Rules)
    requires Replay(principal, log, rules).Ok? && 0 < c < |log|
    ensures Before(principal, log, c - 1, |log[c - 1]|, rules).Ok? && Before(principal, log, c, 0, rules).Ok?
    ensures Remembers(Before(principal, log, c - 1, |log[c - 1]|, rules).value, Before(principal, log, c, 0, rules).value)
  {
    hide Replay, ApplyBatch, ApplyEvents, Remembers;
    BatchAt(principal, log, c - 1, rules);
    BatchEnd(principal, log, c - 1, rules);
    BatchAt(principal, log, c, rules);
    var s := Replay(principal, log[..c - 1], rules).value;
    var t := Replay(principal, log[..c], rules).value;
    assert log[..c - 1 + 1] == log[..c];
    var u := LS.BatchEffect(s, log[c - 1], rules, t);
    assert log[c][..0] == [];
    NoEvents(t, t.version + 1, rules);
    Restamped(u, t.version, t.head);
  }

  lemma Restamped(s: State, version: nat, head: Head)
    ensures Remembers(s, s.(version := version, head := head))
  {
  }

  lemma NoEvents(s: State, version: nat, rules: Rules)
    ensures ApplyEvents(s, [], version, rules) == Ok(s)
  {
  }

  // ---- Revocation is final -----------------------------------------------------------------------

  // Once a grant is revoked, the log never again accepts a reservation, a delegation or an attempt under it or under
  // any grant below it.
  lemma RevokedForGood(principal: Party, log: seq<seq<Event>>, b: nat, i: nat, c: nat, j: nat, rules: Rules)
    requires Replay(principal, log, rules).Ok? && b < |log| && c < |log| && i < |log[b]| && j < |log[c]| && Earlier(b, i, c, j)
    requires log[b][i].Revoke?
    ensures Before(principal, log, c, j, rules).Ok?
    ensures var now := Before(principal, log, c, j, rules).value;
            && Revoked(now, log[b][i].revocation.target)
            && (ActsUnder(now, log[c][j]).Some? ==> !Under(ActsUnder(now, log[c][j]).value, log[b][i].revocation.target))
  {
    hide ApplyEvents, ApplyEvent, Inv, Replay, Before, ActsUnder, Under, NodesOk, Remembers, Revoked;
    var target := log[b][i].revocation.target;
    Moment(principal, log, b, i, rules);
    var s, t := Before(principal, log, b, i, rules).value, Before(principal, log, b, i + 1, rules).value;
    RevocationRecorded(s, log[b][i], b + 1, rules, t);
    HistoryRemembers(principal, log, b, i + 1, c, j, rules);
    Moment(principal, log, c, j, rules);
    var now, next := Before(principal, log, c, j, rules).value, Before(principal, log, c, j + 1, rules).value;
    RevokedStays(t, now, target);
    InvNodes(now);
    RevokedStopsAll(now, log[c][j], c + 1, rules, next, target);
  }

  lemma RevokedStays(s: State, t: State, target: AuthorityId)
    requires Remembers(s, t) && Revoked(s, target)
    ensures Revoked(t, target)
  {
  }

  lemma InvNodes(s: State)
    requires Inv(s)
    ensures NodesOk(s.principal, s.nodes, s.targets)
  {
    hide NodesOk, TargetsOk, PolicyOk, SumsOk, EpochsOk, LimitsOk, ActionsOk, AttemptsOk, ReservationsOk;
  }

  lemma RevocationRecorded(s: State, e: Event, version: nat, rules: Rules, t: State)
    requires Inv(s) && e.Revoke? && ApplyEvent(s, e, version, rules) == Ok(t)
    ensures Revoked(t, e.revocation.target)
  {
    hide Inv, NodesOk;
    InvNodes(s);
    RevokeRemembers(s, e.revocation, e.at, version);
  }

  // The same for an attempt, by the event that made its reservation.
  lemma NoAttemptUnderRevoked(principal: Party, log: seq<seq<Event>>, a: nat, h: nat, b: nat, i: nat, c: nat, j: nat, rules: Rules)
    requires Replay(principal, log, rules).Ok? && a < |log| && b < |log| && c < |log| && h < |log[a]| && i < |log[b]| && j < |log[c]|
    requires Earlier(a, h, c, j) && Earlier(b, i, c, j) && log[a][h].Reserve? && log[b][i].Revoke? && log[c][j].AdmitAttempt?
    requires log[c][j].admission.reservation == ReservationId(log[a][h].plan.action, log[a][h].plan.generation)
    ensures !Under(log[a][h].plan.authority, log[b][i].revocation.target)
  {
    hide ApplyEvents, ApplyEvent, Inv, Replay, Before, Under, Remembers;
    Moment(principal, log, a, h, rules);
    var s, t := Before(principal, log, a, h, rules).value, Before(principal, log, a, h + 1, rules).value;
    ReservationMade(s, log[a][h], a + 1, rules, t);
    HistoryRemembers(principal, log, a, h + 1, c, j, rules);
    Moment(principal, log, c, j, rules);
    var now, next := Before(principal, log, c, j, rules).value, Before(principal, log, c, j + 1, rules).value;
    RevokedForGood(principal, log, b, i, c, j, rules);
    StillMade(t, now, log[c][j].admission.reservation);
  }

  lemma StillMade(t: State, now: State, id: ReservationId)
    requires Remembers(t, now) && id in t.reservations
    ensures id in now.reservations && now.reservations[id].authority == t.reservations[id].authority
  {
  }

  lemma ReservationMade(s: State, e: Event, version: nat, rules: Rules, t: State)
    requires Inv(s) && e.Reserve? && ApplyEvent(s, e, version, rules) == Ok(t)
    ensures var id := ReservationId(e.plan.action, e.plan.generation);
            id in t.reservations && t.reservations[id].authority == e.plan.authority
  {
    hide Inv, DeriveLegs, CheckAvailability, ResolveLineage, LineageRefusal, ModuleAllowed, AddReserved, DemandRecords, AllEventLegs, LineageIds, ValidEvent;
  }

  // ---- Delegation only narrows -------------------------------------------------------------------

  // A child grant within its parent: issued by its holder, in its window, and one step less deep.
  predicate Inside(child: Grant<AuthorityId>, parent: AuthorityId) {
    && child.lineage == DELEGATION(parent, parent.preimage.holder) && child.principal == parent.preimage.principal
    && parent.preimage.notBefore <= child.notBefore && child.expiresAt <= parent.preimage.expiresAt
    && DelegatesTo(parent.preimage.terms, 1)
    && forall k :: 0 <= k < |child.terms| && child.terms[k].RightTerm? && child.terms[k].right.DELEGATE? ==>
         DelegatesTo(parent.preimage.terms, child.terms[k].right.maxDepth + 1)
  }

  ghost predicate Nested(nodes: map<AuthorityId, NodeRecord>) {
    forall id :: id in nodes && id.preimage.lineage.DELEGATION? ==>
      id.preimage.lineage.parent in nodes && Inside(id.preimage, id.preimage.lineage.parent)
  }

  lemma GrantNested(s: State, at: int, g: Grant<AuthorityId>, semantics: Semantics, version: nat, rules: Rules, t: State)
    requires NodesOk(s.principal, s.nodes, s.targets) && Nested(s.nodes)
    requires ApplyEvent(s, RegisterGrant(at, g, semantics), version, rules) == Ok(t)
    ensures Nested(t.nodes)
  {
    hide Acceptance.TargetAfterGrant, NodesOk, Inside, ApplyEvent;
    assert ValidGrant(g) by {
      EventIsValid(s, RegisterGrant(at, g, semantics), version, rules);
    }
    Acceptance.GrantExactly(s, at, g, semantics, version, rules);
    hide ValidGrant;
    if g.lineage.DELEGATION? {
      var path :| Usable(s, g.lineage.parent, path, at) && Acceptance.Narrows(path, g, semantics, rules);
      ChildInside(s, at, g, semantics, rules, path);
    }
  }

  lemma EventIsValid(s: State, e: Event, version: nat, rules: Rules)
    requires ApplyEvent(s, e, version, rules).Ok?
    ensures ValidEvent(e)
  {
  }

  lemma ChildInside(s: State, at: int, g: Grant<AuthorityId>, semantics: Semantics, rules: Rules, path: seq<NodeRecord>)
    requires NodesOk(s.principal, s.nodes, s.targets) && g.lineage.DELEGATION? && g.principal == s.principal
    requires Usable(s, g.lineage.parent, path, at) && Acceptance.Narrows(path, g, semantics, rules)
    ensures g.lineage.parent in s.nodes && Inside(g, g.lineage.parent)
  {
    hide DelegatesTo;
    var parent := path[0];
    assert parent.id in s.nodes && s.nodes[parent.id] == parent && parent.grant == parent.id.preimage;
    assert DelegatesTo(parent.grant.terms, 1 + 0);
    forall k | 0 <= k < |g.terms| && g.terms[k].RightTerm? && g.terms[k].right.DELEGATE?
      ensures DelegatesTo(parent.grant.terms, g.terms[k].right.maxDepth + 1)
    {
      assert DelegatesTo(path[0].grant.terms, g.terms[k].right.maxDepth + 1 + 0);
    }
  }

  lemma EventNests(s: State, e: Event, version: nat, rules: Rules, t: State)
    requires Inv(s) && Nested(s.nodes) && ApplyEvent(s, e, version, rules) == Ok(t)
    ensures Nested(t.nodes)
  {
    hide Inv, NodesOk, Inside, ApplyReserve, ApplyRegisterGrant, ValidEvent, ApplyAdmit, ApplyAccount;
    InvNodes(s);
    match e
    case RegisterGrant(at, g, semantics) => GrantNested(s, at, g, semantics, version, rules, t);
    case Reserve(_, _, _, _, _) =>
      Charging.ReserveExactly(s, e, version, rules);
    case Account(_, _, _, _, _, _) => Charging.AccountExactly(s, e, version, rules);
    case AdmitAttempt(at, a) => Charging.AttemptExactly(s, at, a, version, rules);
    case _ =>
  }

  lemma {:induction false} EventsNest(s: State, events: seq<Event>, version: nat, rules: Rules)
    requires Inv(s) && Nested(s.nodes) && ApplyEvents(s, events, version, rules).Ok?
    ensures Nested(ApplyEvents(s, events, version, rules).value.nodes)
    decreases |events|
  {
    hide Inv, ApplyEvent, Nested;
    if events != [] {
      var t := ApplyEvent(s, events[0], version, rules).value;
      EventNests(s, events[0], version, rules, t);
      LS.EventKeeps(s, events[0], version, rules);
      EventsNest(t, events[1..], version, rules);
    }
  }

  lemma {:induction false} HistoryNests(principal: Party, log: seq<seq<Event>>, rules: Rules)
    requires Replay(principal, log, rules).Ok?
    ensures Nested(Replay(principal, log, rules).value.nodes)
    decreases |log|
  {
    hide Inv, ApplyEvents, Inside;
    if log != [] {
      var front, last := log[..|log| - 1], log[|log| - 1];
      var s := Replay(principal, front, rules).value;
      HistoryNests(principal, front, rules);
      LS.ReplayKeeps(principal, front, rules);
      var u := LS.BatchEffect(s, last, rules, Replay(principal, log, rules).value);
      EventsNest(s, last, s.version + 1, rules);
    }
  }

  // In every reachable ledger a grant's window lies within that of every grant it descends from, all of them registered.
  lemma {:induction false} DescendantsAreWithin(principal: Party, log: seq<seq<Event>>, rules: Rules, id: AuthorityId, ancestor: AuthorityId)
    requires Replay(principal, log, rules).Ok? && id in Replay(principal, log, rules).value.nodes && Under(id, ancestor)
    ensures ancestor in Replay(principal, log, rules).value.nodes
    ensures ancestor.preimage.notBefore <= id.preimage.notBefore && id.preimage.expiresAt <= ancestor.preimage.expiresAt
    decreases id
  {
    hide Replay;
    HistoryNests(principal, log, rules);
    if id != ancestor {
      DescendantsAreWithin(principal, log, rules, id.preimage.lineage.parent, ancestor);
    }
  }
}
