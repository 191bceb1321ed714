// Admitting needs against supplied snapshots, and how long what was admitted lasts
// (packages/control/src/admission.ts:324-390, packages/control/src/pipeline.ts:447-466).
module StateBindings {
  import opened Common
  import opened Core
  import opened StateAdmission
  import opened StateNeeds

  // A snapshot's identity is the digest of its envelope; the envelope stands for it.
  datatype Envelope = Envelope(
    moduleRef: ModuleRef, stateKind: string, subject: Resource, sourceId: string, trustClass: TrustClass,
    observedAt: int, validUntil: Option<int>, sequence: Sequence, finality: FinalityRef, payloadDigest: Bytes)

  predicate ValidSequence(q: Sequence) {
    q.NoSequence? || 0 <= q.value <= UINT64_MAX
  }

  // A validated snapshot: a declared end is after the observation.
  predicate ValidEnvelope(e: Envelope) {
    && ValidModule(e.moduleRef) && ValidIdentifier(e.stateKind) && ValidResource(e.subject) && ValidIdentifier(e.sourceId)
    && INT64_MIN <= e.observedAt <= INT64_MAX && (e.validUntil.Some? ==> e.observedAt < e.validUntil.value <= INT64_MAX)
    && ValidSequence(e.sequence)
    && ValidIdentifier(e.finality.ladder) && ValidIdentifier(e.finality.level) && IsDigest(e.payloadDigest)
  }

  datatype Prepared = Prepared(envelope: Envelope, payloadMatches: bool)

  datatype Binding = Binding(
    stateKind: string, subject: Resource, sourceId: string, trustClass: TrustClass, sequence: Sequence,
    observedAt: int, validUntil: Option<int>, finality: FinalityRef, stateDigest: Envelope, requirement: Requirement)

  datatype AdmittedState = AdmittedState(need: Need, envelope: Envelope, binding: Binding)

  function ObservedOf(e: Envelope): Observed {
    Observed(e.moduleRef.domainId, e.stateKind, e.subject, e.sourceId, e.trustClass, e.observedAt, e.validUntil, e.sequence,
             e.finality, Some(e.payloadDigest))
  }

  function Bind(e: Envelope, r: Requirement): Binding {
    Binding(e.stateKind, e.subject, e.sourceId, e.trustClass, e.sequence, e.observedAt, e.validUntil, e.finality, e, r)
  }

  predicate Candidate(n: Need, p: Prepared) {
    p.envelope.stateKind == n.stateKind && p.envelope.subject == n.subject && p.envelope.moduleRef == n.moduleRef
  }

  // The last supplied copy of the need's one snapshot; two different snapshots are a conflict.
  function Chosen(n: Need, prepared: seq<Prepared>): Option<Prepared> {
    if prepared == [] then None
    else
      var last := prepared[|prepared| - 1];
      if Candidate(n, last) then Some(last) else Chosen(n, prepared[..|prepared| - 1])
  }

  predicate Ambiguous(n: Need, prepared: seq<Prepared>) {
    exists i, j :: 0 <= i < |prepared| && 0 <= j < |prepared| && Candidate(n, prepared[i]) && Candidate(n, prepared[j])
                   && prepared[i].envelope != prepared[j].envelope
  }

  function AdmitOne(n: Need, prepared: seq<Prepared>, ctx: Context): Result<AdmittedState> {
    var chosen := Chosen(n, prepared);
    if chosen.None? then
      if exists i :: 0 <= i < |prepared| && prepared[i].envelope.stateKind == n.stateKind && prepared[i].envelope.subject == n.subject
      then Refused("MODULE_MISMATCH") else Refused("STATE_NOT_SUPPLIED")
    else if Ambiguous(n, prepared) then Refused("AMBIGUOUS_SNAPSHOTS")
    else
      var p := chosen.value;
      if !p.payloadMatches then Refused("PAYLOAD_DIGEST_MISMATCH")
      else
        var assessed := Assess(ObservedOf(p.envelope), n.requirement, n.sources, n.ladders, ctx);
        if assessed.Some? then Refused(assessed.value)
        else if !ValidRequirement(n.requirement) then Refused("REQUIREMENT_INVALID")
        else Ok(AdmittedState(n, p.envelope, Bind(p.envelope, n.requirement)))
  }

  lemma {:induction false} ChosenMatches(n: Need, prepared: seq<Prepared>)
    ensures Chosen(n, prepared).Some? ==> Candidate(n, Chosen(n, prepared).value)
    decreases |prepared|
  {
    if prepared != [] && !Candidate(n, prepared[|prepared| - 1]) {
      ChosenMatches(n, prepared[..|prepared| - 1]);
    }
  }

  // What an admission is: the need's own module, kind and subject, observed within its requirement now.
  lemma AdmittedFacts(n: Need, prepared: seq<Prepared>, ctx: Context)
    requires AdmitOne(n, prepared, ctx).Ok?
    ensures var a := AdmitOne(n, prepared, ctx).value;
            && a.need == n && a.binding == Bind(a.envelope, n.requirement)
            && a.envelope.moduleRef == n.moduleRef && a.envelope.stateKind == n.stateKind && a.envelope.subject == n.subject
            && ValidRequirement(n.requirement)
            && Admits(ObservedOf(a.envelope), n.requirement, n.sources, n.ladders, ctx)
  {
    hide Assess;
    ChosenMatches(n, prepared);
  }

  // ---- Admitting every need --------------------------------------------------------------------

  function AdmitAll(needs: seq<Need>, prepared: seq<Prepared>, ctx: Context): (r: Result<seq<AdmittedState>>)
    ensures r.Ok? ==> |r.value| == |needs|
    decreases |needs|
  {
    if needs == [] then Ok([])
    else match AdmitAll(needs[..|needs| - 1], prepared, ctx)
      case Refused(code) => Refused(code)
      case Ok(before) =>
        match AdmitOne(needs[|needs| - 1], prepared, ctx)
        case Refused(code) => Refused(code)
        case Ok(a) => Ok(before + [a])
  }

  // Every need is asked even after one failed; the first failure names the refusal.
  method AdmitNeeds(needs: seq<Need>, prepared: seq<Prepared>, ctx: Context) returns (r: Result<seq<AdmittedState>>)
    ensures r == AdmitAll(needs, prepared, ctx)
  {
    var admitted: seq<AdmittedState> := [];
    var failures: seq<string> := [];
    var i := 0;
    while i < |needs|
      invariant 0 <= i <= |needs|
      invariant failures == [] ==> AdmitAll(needs[..i], prepared, ctx) == Ok(admitted)
      invariant failures != [] ==> AdmitAll(needs[..i], prepared, ctx) == Refused(failures[0])
    {
      assert needs[..i + 1][..i] == needs[..i];
      var one := AdmitOne(needs[i], prepared, ctx);
      if one.Ok? {
        admitted := admitted + [one.value];
      } else {
        failures := failures + [one.code];
      }
      i := i + 1;
    }
    assert needs[..i] == needs;
    r := if failures != [] then Refused(failures[0]) else Ok(admitted);
  }

  lemma {:induction false} AdmitAllEach(needs: seq<Need>, prepared: seq<Prepared>, ctx: Context, i: nat)
    requires AdmitAll(needs, prepared, ctx).Ok? && i < |needs|
    ensures AdmitOne(needs[i], prepared, ctx) == Ok(AdmitAll(needs, prepared, ctx).value[i])
    decreases |needs|
  {
    if i < |needs| - 1 {
      AdmitAllEach(needs[..|needs| - 1], prepared, ctx, i);
    }
  }

  predicate DifferentSubjects(a: Need, b: Need) {
    a.moduleRef != b.moduleRef || a.stateKind != b.stateKind || a.subject != b.subject
  }

  // Needs with different subjects are met by different snapshots, so no binding repeats.
  lemma AdmissionsDiffer(needs: seq<Need>, prepared: seq<Prepared>, ctx: Context, i: nat, j: nat)
    requires AdmitAll(needs, prepared, ctx).Ok? && i < |needs| && j < |needs| && DifferentSubjects(needs[i], needs[j])
    ensures var out := AdmitAll(needs, prepared, ctx).value;
            out[i].envelope != out[j].envelope && out[i].binding.stateDigest != out[j].binding.stateDigest
  {
    AdmitAllEach(needs, prepared, ctx, i);
    AdmitAllEach(needs, prepared, ctx, j);
    AdmittedFacts(needs[i], prepared, ctx);
    AdmittedFacts(needs[j], prepared, ctx);
  }

  // ---- Lifetimes -------------------------------------------------------------------------------

  function MaxAge(f: Freshness): Option<int> {
    match f
    case AGE(maxAge) => Some(maxAge)
    case VERSION(_, maxAge) => Some(maxAge)
    case _ => None
  }

  // When a binding that must still hold at execution stops holding; None for the other kinds.
  function Ends(b: Binding): seq<int> {
    if !b.requirement.atExecution.BOUNDED_BY_FRESHNESS? then []
    else
      (if MaxAge(b.requirement.freshness).Some? then [b.observedAt + MaxAge(b.requirement.freshness).value] else [])
      + (if b.validUntil.Some? then [b.validUntil.value] else [])
  }

  function AllEnds(bs: seq<Binding>): seq<int> {
    if bs == [] then [] else AllEnds(bs[..|bs| - 1]) + Ends(bs[|bs| - 1])
  }

  // The greatest lower bound of a list and a bound.
  ghost predicate IsEarliest(r: int, end: int, ends: seq<int>) {
    && r <= end
    && (forall i :: 0 <= i < |ends| ==> r <= ends[i])
    && (r == end || r in ends)
  }

  method BindingLifetime(bs: seq<Binding>, end: int) returns (out: int)
    ensures IsEarliest(out, end, AllEnds(bs))
  {
    out := end;
    var i := 0;
    while i < |bs|
      invariant 0 <= i <= |bs|
      invariant IsEarliest(out, end, AllEnds(bs[..i]))
    {
      var b := bs[i];
      assert bs[..i + 1][..i] == bs[..i];
      ghost var before, more := AllEnds(bs[..i]), Ends(b);
      assert AllEnds(bs[..i + 1]) == before + more;
      if b.requirement.atExecution.BOUNDED_BY_FRESHNESS? {
        var f := MaxAge(b.requirement.freshness);
        if f.Some? {
          var stale := b.observedAt + f.value;
          EarliestNext(out, end, before, stale);
          if stale < out {
            out := stale;
          }
          before := before + [stale];
        }
        if b.validUntil.Some? {
          EarliestNext(out, end, before, b.validUntil.value);
          if b.validUntil.value < out {
            out := b.validUntil.value;
          }
          before := before + [b.validUntil.value];
        }
      }
      assert AllEnds(bs[..i + 1]) == before;
      i := i + 1;
    }
    assert bs[..i] == bs;
  }

  lemma EarliestNext(r: int, end: int, xs: seq<int>, x: int)
    requires IsEarliest(r, end, xs)
    ensures IsEarliest(if x < r then x else r, end, xs + [x])
  {
    assert (xs + [x])[|xs|] == x;
    assert forall i :: 0 <= i < |xs| ==> (xs + [x])[i] == xs[i];
  }

  // The same value as a function, for statements about whole decisions.
  function Earliest(end: int, ends: seq<int>): (r: int)
    ensures IsEarliest(r, end, ends)
  {
    if ends == [] then end
    else
      var r := Earliest(end, ends[..|ends| - 1]);
      assert ends == ends[..|ends| - 1] + [ends[|ends| - 1]];
      Min(r, ends[|ends| - 1])
  }

  function LifetimeOf(bs: seq<Binding>, end: int): int {
    Earliest(end, AllEnds(bs))
  }

  // min(action end, lineage end, module cap), then every bounded binding.
  function AuthorizationLifetime(actionEnd: int, lineageEnd: int, cap: Option<int>, bs: seq<Binding>): int {
    var end := Min(actionEnd, lineageEnd);
    LifetimeOf(bs, if cap.Some? && cap.value < end then cap.value else end)
  }

  // It is the greatest time no dependency ends before.
  lemma AuthorizationLifetimeIsGlb(actionEnd: int, lineageEnd: int, cap: Option<int>, bs: seq<Binding>, t: int)
    ensures t <= AuthorizationLifetime(actionEnd, lineageEnd, cap, bs)
       <==> t <= actionEnd && t <= lineageEnd && (cap.Some? ==> t <= cap.value)
            && forall k :: 0 <= k < |AllEnds(bs)| ==> t <= AllEnds(bs)[k]
  {
    var ends := AllEnds(bs);
    var end := Min(actionEnd, lineageEnd);
    var base := if cap.Some? && cap.value < end then cap.value else end;
    var r := Earliest(base, ends);
    if r != base {
      var k :| 0 <= k < |ends| && ends[k] == r;
    }
  }

  lemma {:induction false} EndsIncluded(bs: seq<Binding>, i: nat, x: int)
    requires i < |bs| && x in Ends(bs[i])
    ensures x in AllEnds(bs)
    decreases |bs|
  {
    if i < |bs| - 1 {
      EndsIncluded(bs[..|bs| - 1], i, x);
    }
  }

  // ---- Re-admission ----------------------------------------------------------------------------

  // A binding is re-admitted from itself alone, with its own source as the admitted list.
  function Readmit(b: Binding, domain: string, ladders: seq<Ladder>, ctx: Context): Option<string> {
    Assess(Observed(domain, b.stateKind, b.subject, b.sourceId, b.trustClass, b.observedAt, b.validUntil, b.sequence, b.finality, None),
           b.requirement, [b.sourceId], ladders, ctx)
  }

  // The configuration re-admission reads besides the time.
  predicate SameSource(a: Context, b: Context, sourceId: string) {
    sourceId in a.sources && sourceId in b.sources && a.sources[sourceId] == b.sources[sourceId]
  }

  // For a binding bounded by freshness, an unchanged source re-admits it exactly up to its age and validity.
  lemma ReadmitsExactly(a: AdmittedState, prepared: seq<Prepared>, at: Context, now: Context)
    requires AdmitOne(a.need, prepared, at) == Ok(a)
    requires a.binding.requirement.atExecution.BOUNDED_BY_FRESHNESS? && SameSource(at, now, a.binding.sourceId)
    requires at.evaluationTime <= now.evaluationTime
    ensures MaxAge(a.binding.requirement.freshness).Some?
    ensures Readmit(a.binding, a.need.moduleRef.domainId, a.need.ladders, now).None?
       <==> now.evaluationTime <= a.binding.observedAt + MaxAge(a.binding.requirement.freshness).value
            && (a.binding.validUntil.Some? ==> now.evaluationTime < a.binding.validUntil.value)
  {
    AdmittedFacts(a.need, prepared, at);
  }

  // Within the computed lifetime every bounded binding still re-admits.
  lemma LifetimeReadmits(a: AdmittedState, prepared: seq<Prepared>, at: Context, now: Context, bs: seq<Binding>, end: int)
    requires AdmitOne(a.need, prepared, at) == Ok(a) && a.binding in bs
    requires a.binding.requirement.atExecution.BOUNDED_BY_FRESHNESS? && SameSource(at, now, a.binding.sourceId)
    requires at.evaluationTime <= now.evaluationTime < LifetimeOf(bs, end)
    ensures Readmit(a.binding, a.need.moduleRef.domainId, a.need.ladders, now).None?
  {
    ReadmitsExactly(a, prepared, at, now);
    var b := a.binding;
    var i :| 0 <= i < |bs| && bs[i] == b;
    var stale := b.observedAt + MaxAge(b.requirement.freshness).value;
    assert Ends(b)[0] == stale;
    EndsIncluded(bs, i, stale);
    if b.validUntil.Some? {
      assert Ends(b)[1] == b.validUntil.value;
      EndsIncluded(bs, i, b.validUntil.value);
    }
  }
}
