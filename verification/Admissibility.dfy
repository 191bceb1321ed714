// Which snapshot is admissible under which requirement, condition by condition, and what the combined requirement of
// several asks (packages/control/src/admission.ts:111-200, 257-369).
module Admissibility {
  import opened Common
  import opened Core
  import opened StateAdmission
  import opened StateNeeds
  import opened StateBindings

  // ---- Levels of a ladder ------------------------------------------------------------------------

  // A level stands at position `p` of the first ladder of its name, and nowhere before on it.
  predicate StandsAt(ladders: seq<Ladder>, f: FinalityRef, p: nat) {
    exists k :: 0 <= k < |ladders| && FirstNamed(ladders, f.ladder, k) && FirstAt(ladders[k].levels, f.level, p)
  }

  predicate FirstNamed(ladders: seq<Ladder>, name: string, k: nat) {
    k < |ladders| && ladders[k].name == name && forall j :: 0 <= j < k ==> ladders[j].name != name
  }

  predicate FirstAt(levels: seq<string>, level: string, p: nat) {
    p < |levels| && levels[p] == level && forall q :: 0 <= q < p ==> levels[q] != level
  }

  lemma {:induction false} IndexIs(levels: seq<string>, level: string, p: nat)
    ensures IndexOf(levels, level) == p <==> FirstAt(levels, level, p)
    ensures IndexOf(levels, level) >= -1
    decreases |levels|
  {
    if levels != [] && levels[0] != level {
      var rest := levels[1..];
      assert forall q :: 0 <= q < |rest| ==> rest[q] == levels[q + 1];
      IndexIs(rest, level, if p > 0 then p - 1 else 0);
      if FirstAt(levels, level, p) {
        assert p > 0 && FirstAt(rest, level, p - 1);
      }
      if p > 0 && FirstAt(rest, level, p - 1) {
        forall q | 0 <= q < p ensures levels[q] != level {
          assert q > 0 ==> rest[q - 1] != level;
        }
      }
    }
  }

  lemma {:induction false} LevelIs(ladders: seq<Ladder>, f: FinalityRef, p: nat)
    ensures LevelIndex(ladders, f) == p <==> StandsAt(ladders, f, p)
    ensures LevelIndex(ladders, f) >= -1
    decreases |ladders|
  {
    hide IndexOf, FirstAt;
    if ladders != [] {
      if ladders[0].name == f.ladder {
        IndexIs(ladders[0].levels, f.level, p);
        if StandsAt(ladders, f, p) {
          var k :| 0 <= k < |ladders| && FirstNamed(ladders, f.ladder, k) && FirstAt(ladders[k].levels, f.level, p);
        }
        if FirstAt(ladders[0].levels, f.level, p) {
          assert FirstNamed(ladders, f.ladder, 0);
        }
      } else {
        var rest := ladders[1..];
        LevelIs(rest, f, p);
        if StandsAt(ladders, f, p) {
          var k :| 0 <= k < |ladders| && FirstNamed(ladders, f.ladder, k) && FirstAt(ladders[k].levels, f.level, p);
          assert rest[k - 1] == ladders[k] && FirstNamed(rest, f.ladder, k - 1);
        }
        if StandsAt(rest, f, p) {
          var k :| 0 <= k < |rest| && FirstNamed(rest, f.ladder, k) && FirstAt(rest[k].levels, f.level, p);
          assert ladders[k + 1] == rest[k];
          assert FirstNamed(ladders, f.ladder, k + 1) by {
            forall j | 0 <= j < k + 1 ensures ladders[j].name != f.ladder {
              assert j > 0 ==> ladders[j] == rest[j - 1];
            }
          }
        }
      }
    }
  }

  // ---- Admissible observations -------------------------------------------------------------------

  // From a source configured for its kind, of the class it claims, and one of those admitted.
  predicate Sourced(o: Observed, sources: seq<string>, ctx: Context) {
    && o.sourceId in sources && o.sourceId in ctx.sources
    && (o.domain, o.stateKind) in ctx.sources[o.sourceId].kinds
    && o.trustClass == ctx.sources[o.sourceId].trustClass
  }

  // Trusted at all, and as authoritative as required.
  predicate Trusted(have: TrustClass, need: TrustClass) {
    have.AUTHORITATIVE? || (have.VERIFIED? && !need.AUTHORITATIVE?)
  }

  predicate Fresh(o: Observed, f: Freshness, ctx: Context) {
    match f
    case AGE(maxAge) => ctx.evaluationTime <= o.observedAt + maxAge
    case BLOCKS(behind) =>
      o.sequence.Block? && o.sourceId in ctx.blockHeads && o.sequence.value <= ctx.blockHeads[o.sourceId] <= o.sequence.value + behind
    case SEQUENCE =>
      && !o.sequence.NoSequence? && (o.sourceId, o.stateKind, o.subject) in ctx.watermarks
      && ctx.watermarks[(o.sourceId, o.stateKind, o.subject)] <= o.sequence.value
    case VERSION(pinned, maxAge) =>
      (o.payloadDigest.Some? ==> o.payloadDigest.value == pinned) && ctx.evaluationTime <= o.observedAt + maxAge
  }

  // On the required ladder, at a declared level no lower than the required one.
  ghost predicate Final(have: FinalityRef, need: FinalityRef, ladders: seq<Ladder>) {
    && have.ladder == need.ladder
    && exists p: nat :: StandsAt(ladders, have, p) && forall q: nat :: StandsAt(ladders, need, q) ==> q <= p
  }

  ghost predicate Meets(o: Observed, r: Requirement, sources: seq<string>, ladders: seq<Ladder>, ctx: Context) {
    && Sourced(o, sources, ctx) && Trusted(o.trustClass, r.minTrust)
    && o.observedAt <= ctx.evaluationTime && (o.validUntil.Some? ==> ctx.evaluationTime < o.validUntil.value)
    && Fresh(o, r.freshness, ctx) && Final(o.finality, r.minFinality, ladders)
  }

  lemma FinalIs(have: FinalityRef, need: FinalityRef, ladders: seq<Ladder>)
    ensures Final(have, need, ladders) <==>
              have.ladder == need.ladder && LevelIndex(ladders, have) >= 0 && LevelIndex(ladders, need) <= LevelIndex(ladders, have)
  {
    hide LevelIndex, StandsAt;
    forall p: nat
      ensures LevelIndex(ladders, have) == p <==> StandsAt(ladders, have, p)
      ensures LevelIndex(ladders, need) == p <==> StandsAt(ladders, need, p)
    {
      LevelIs(ladders, have, p);
      LevelIs(ladders, need, p);
    }
    LevelIs(ladders, need, 0);
    if LevelIndex(ladders, have) >= 0 && LevelIndex(ladders, need) <= LevelIndex(ladders, have) {
      assert StandsAt(ladders, have, LevelIndex(ladders, have));
    }
    if Final(have, need, ladders) && LevelIndex(ladders, need) >= 0 {
      assert StandsAt(ladders, need, LevelIndex(ladders, need));
    }
  }

  // An observation is assessed admissible exactly when its source, trust, time, freshness and finality all are.
  lemma AssessExactly(o: Observed, r: Requirement, sources: seq<string>, ladders: seq<Ladder>, ctx: Context)
    ensures Assess(o, r, sources, ladders, ctx).None? <==> Meets(o, r, sources, ladders, ctx)
  {
    hide LevelIndex, Final;
    FinalIs(o.finality, r.minFinality, ladders);
    assert AssessFreshness(o, r.freshness, ctx).None? <==> Fresh(o, r.freshness, ctx);
  }

  // A refusal names what is wrong: with the source and the trust placed in it,
  lemma AssessBlames(o: Observed, r: Requirement, sources: seq<string>, ladders: seq<Ladder>, ctx: Context)
    ensures Assess(o, r, sources, ladders, ctx).Some? ==>
              var code := Assess(o, r, sources, ladders, ctx).value;
              && (code == "SOURCE_NOT_CONFIGURED" <==> o.sourceId !in ctx.sources)
              && (code == "TRUST_CLASS_MISMATCH" ==> o.trustClass != ctx.sources[o.sourceId].trustClass)
              && (code == "SOURCE_NOT_ADMITTED" ==> o.sourceId !in sources)
              && (code == "TRUST_INSUFFICIENT" ==> !Trusted(o.trustClass, r.minTrust))
  {
    hide LevelIndex;
  }

  // or with its time, its freshness
  lemma AssessBlamesTime(o: Observed, r: Requirement, sources: seq<string>, ladders: seq<Ladder>, ctx: Context)
    ensures Assess(o, r, sources, ladders, ctx).Some? ==>
              var code := Assess(o, r, sources, ladders, ctx).value;
              && (code == "OBSERVED_IN_FUTURE" ==> ctx.evaluationTime < o.observedAt)
              && (code == "SOURCE_VALIDITY_ENDED" ==> o.validUntil.Some? && o.validUntil.value <= ctx.evaluationTime)
              && (code == "AGE_EXCEEDED" ==> !Fresh(o, r.freshness, ctx) && (r.freshness.AGE? || r.freshness.VERSION?))
              && (code == "BEHIND_WATERMARK" ==> r.freshness.SEQUENCE? && !Fresh(o, r.freshness, ctx))
  {
    hide LevelIndex;
  }

  // or its finality.
  lemma AssessBlamesFinality(o: Observed, r: Requirement, sources: seq<string>, ladders: seq<Ladder>, ctx: Context)
    ensures Assess(o, r, sources, ladders, ctx).Some? ==>
              (Assess(o, r, sources, ladders, ctx).value in
                 ["FINALITY_BELOW_REQUIRED", "FINALITY_LEVEL_UNDECLARED", "FINALITY_LADDER_MISMATCH"] ==>
                 !Final(o.finality, r.minFinality, ladders))
  {
    hide LevelIndex, Final;
    FinalIs(o.finality, r.minFinality, ladders);
  }

  // ---- Admitting one need ------------------------------------------------------------------------

  // A supplied snapshot of exactly what the need asks about.
  predicate Answers(n: Need, p: Prepared) {
    p.envelope.stateKind == n.stateKind && p.envelope.subject == n.subject && p.envelope.moduleRef == n.moduleRef
  }

  // The one snapshot that answers a need, and its last supplied copy, whose payload is the one digested.
  predicate OnlyAnswer(n: Need, prepared: seq<Prepared>, i: nat) {
    && i < |prepared| && Answers(n, prepared[i]) && prepared[i].payloadMatches
    && (forall j :: 0 <= j < |prepared| && Answers(n, prepared[j]) ==> j <= i && prepared[j].envelope == prepared[i].envelope)
  }

  function Provenance(e: Envelope): Observed {
    Observed(e.moduleRef.domainId, e.stateKind, e.subject, e.sourceId, e.trustClass, e.observedAt, e.validUntil, e.sequence, e.finality,
             Some(e.payloadDigest))
  }

  // A binding commits to its snapshot, to everything its admission read, and to the requirement it was admitted under.
  predicate Commits(b: Binding, e: Envelope, r: Requirement) {
    && b.stateDigest == e && b.requirement == r
    && b.stateKind == e.stateKind && b.subject == e.subject && b.sourceId == e.sourceId && b.trustClass == e.trustClass
    && b.sequence == e.sequence && b.observedAt == e.observedAt && b.validUntil == e.validUntil && b.finality == e.finality
  }

  ghost predicate AdmittedAs(n: Need, prepared: seq<Prepared>, ctx: Context, a: AdmittedState) {
    && a.need == n && Commits(a.binding, a.envelope, n.requirement) && ValidRequirement(n.requirement)
    && (exists i: nat :: OnlyAnswer(n, prepared, i) && prepared[i].envelope == a.envelope)
    && Meets(Provenance(a.envelope), n.requirement, n.sources, n.ladders, ctx)
  }

  lemma {:induction false} ChosenIs(n: Need, prepared: seq<Prepared>)
    ensures Chosen(n, prepared).Some? <==> exists i :: 0 <= i < |prepared| && Answers(n, prepared[i])
    ensures Chosen(n, prepared).Some? ==>
              exists i :: 0 <= i < |prepared| && Answers(n, prepared[i]) && prepared[i] == Chosen(n, prepared).value
                          && forall j :: 0 <= j < |prepared| && Answers(n, prepared[j]) ==> j <= i
    decreases |prepared|
  {
    if prepared != [] {
      var last, front := prepared[|prepared| - 1], prepared[..|prepared| - 1];
      ChosenIs(n, front);
      if !Answers(n, last) && Chosen(n, front).Some? {
        var i :| 0 <= i < |front| && Answers(n, front[i]) && front[i] == Chosen(n, front).value
                 && forall j :: 0 <= j < |front| && Answers(n, front[j]) ==> j <= i;
        assert prepared[i] == front[i];
        forall j | 0 <= j < |prepared| && Answers(n, prepared[j]) ensures j <= i {
          assert j < |front| && prepared[j] == front[j];
        }
      }
    }
  }

  // A need is admitted exactly on the one supplied snapshot that answers it, when that snapshot meets it.
  lemma AdmitsExactly(n: Need, prepared: seq<Prepared>, ctx: Context, a: AdmittedState)
    ensures AdmitOne(n, prepared, ctx) == Ok(a) <==> AdmittedAs(n, prepared, ctx, a)
  {
    hide Assess, Meets, Chosen, ValidRequirement;
    ChosenIs(n, prepared);
    forall e: Envelope ensures Assess(ObservedOf(e), n.requirement, n.sources, n.ladders, ctx).None?
                          <==> Meets(Provenance(e), n.requirement, n.sources, n.ladders, ctx) {
      AssessExactly(ObservedOf(e), n.requirement, n.sources, n.ladders, ctx);
    }
    if AdmitOne(n, prepared, ctx) == Ok(a) {
      var i :| 0 <= i < |prepared| && Answers(n, prepared[i]) && prepared[i] == Chosen(n, prepared).value
               && forall j :: 0 <= j < |prepared| && Answers(n, prepared[j]) ==> j <= i;
      assert OnlyAnswer(n, prepared, i) by {
        forall j | 0 <= j < |prepared| && Answers(n, prepared[j]) ensures prepared[j].envelope == prepared[i].envelope {
          assert Candidate(n, prepared[j]) && Candidate(n, prepared[i]);
        }
      }
    }
    if AdmittedAs(n, prepared, ctx, a) {
      var i: nat :| OnlyAnswer(n, prepared, i) && prepared[i].envelope == a.envelope;
      assert Chosen(n, prepared) == Some(prepared[i]);
      assert a.binding == Bind(a.envelope, n.requirement);
      assert a == AdmittedState(n, a.envelope, a.binding);
    }
  }

  // All needs are admitted exactly when each is, each on its own.
  lemma {:induction false} AdmitsEach(needs: seq<Need>, prepared: seq<Prepared>, ctx: Context, out: seq<AdmittedState>)
    ensures AdmitAll(needs, prepared, ctx) == Ok(out) <==>
              |out| == |needs| && forall i :: 0 <= i < |needs| ==> AdmittedAs(needs[i], prepared, ctx, out[i])
    decreases |needs|
  {
    hide AdmitOne, AdmittedAs;
    if needs != [] {
      var front, last := needs[..|needs| - 1], needs[|needs| - 1];
      var before := AdmitAll(front, prepared, ctx);
      if |out| == |needs| {
        AdmitsEach(front, prepared, ctx, out[..|out| - 1]);
        AdmitsExactly(last, prepared, ctx, out[|out| - 1]);
        assert out == out[..|out| - 1] + [out[|out| - 1]];
      }
      if before.Ok? {
        AdmitsEach(front, prepared, ctx, before.value);
      }
    }
  }

  // ---- Combining requirements --------------------------------------------------------------------

  // The tighter of two freshness conditions of one kind.
  predicate TighterFreshness(a: Freshness, b: Freshness, c: Freshness) {
    match c
    case AGE(m) => a.AGE? && b.AGE? && m <= a.maxAgeSeconds && m <= b.maxAgeSeconds && (m == a.maxAgeSeconds || m == b.maxAgeSeconds)
    case BLOCKS(m) => a.BLOCKS? && b.BLOCKS? && m <= a.maxBlocksBehind && m <= b.maxBlocksBehind && (m == a.maxBlocksBehind || m == b.maxBlocksBehind)
    case SEQUENCE => a.SEQUENCE? && b.SEQUENCE?
    case VERSION(pinned, m) =>
      && a.VERSION? && b.VERSION? && a.pinned == pinned && b.pinned == pinned
      && m <= a.maxAge && m <= b.maxAge && (m == a.maxAge || m == b.maxAge)
  }

  // What execution depends on: what either asks, when they ask the same or only one asks.
  predicate JoinedDependence(a: Dependence, b: Dependence, c: Dependence) {
    (a.NOT_REQUIRED? || a == c) && (b.NOT_REQUIRED? || b == c) && (c == a || c == b)
  }

  ghost predicate HigherOf(ladders: seq<Ladder>, a: FinalityRef, b: FinalityRef, c: FinalityRef) {
    && a.ladder == b.ladder && (c == a || c == b)
    && exists p: nat, q: nat, r: nat :: StandsAt(ladders, a, p) && StandsAt(ladders, b, q) && StandsAt(ladders, c, r) && p <= r && q <= r
  }

  // The combination of two requirements: the stricter of every part, a recheck when either asks for one.
  ghost predicate Combines(ladders: seq<Ladder>, a: Requirement, b: Requirement, c: Requirement) {
    && TighterFreshness(a.freshness, b.freshness, c.freshness)
    && (c.minTrust == a.minTrust || c.minTrust == b.minTrust) && (c.minTrust.VERIFIED? <==> a.minTrust.VERIFIED? && b.minTrust.VERIFIED?)
    && HigherOf(ladders, a.minFinality, b.minFinality, c.minFinality)
    && (c.atIssue.RECHECK? <==> a.atIssue.RECHECK? || b.atIssue.RECHECK?)
    && JoinedDependence(a.atExecution, b.atExecution, c.atExecution)
  }

  lemma HigherIs(ladders: seq<Ladder>, a: FinalityRef, b: FinalityRef, c: FinalityRef)
    ensures HigherOf(ladders, a, b, c) <==>
              a.ladder == b.ladder && LevelIndex(ladders, a) >= 0 && LevelIndex(ladders, b) >= 0 && c == HigherLevel(ladders, a, b)
  {
    hide LevelIndex, StandsAt;
    forall p: nat, f: FinalityRef ensures LevelIndex(ladders, f) == p <==> StandsAt(ladders, f, p) {
      LevelIs(ladders, f, p);
    }
    if HigherOf(ladders, a, b, c) {
      if LevelIndex(ladders, a) == LevelIndex(ladders, b) {
        LevelNames(ladders, a, b);
      }
    } else if a.ladder == b.ladder && LevelIndex(ladders, a) >= 0 && LevelIndex(ladders, b) >= 0 && c == HigherLevel(ladders, a, b) {
      assert StandsAt(ladders, a, LevelIndex(ladders, a)) && StandsAt(ladders, b, LevelIndex(ladders, b)) && StandsAt(ladders, c, LevelIndex(ladders, c));
    }
  }

  // Two valid requirements combine exactly when every part does, into that combination.
  lemma TightenExactly(ladders: seq<Ladder>, a: Requirement, b: Requirement, c: Requirement)
    requires ValidRequirement(a) && ValidRequirement(b)
    ensures Tighten(ladders, a, b) == Ok(c) <==> Combines(ladders, a, b, c)
  {
    hide LevelIndex, HigherOf;
    TightenIsCombined(ladders, a, b);
    HigherIs(ladders, a.minFinality, b.minFinality, c.minFinality);
  }

  // Every requirement folded into one is reflected in what execution and issue ask of the result.
  lemma {:induction false} FoldKeeps(ladders: seq<Ladder>, x: Requirement, rs: seq<Requirement>)
    requires TightenAll(ladders, Ok(x), rs).Ok? && ValidRequirement(x) && AllValid(rs)
    ensures var c := TightenAll(ladders, Ok(x), rs).value;
            && ValidRequirement(c)
            && (c.atIssue.RECHECK? <==> x.atIssue.RECHECK? || exists i :: 0 <= i < |rs| && rs[i].atIssue.RECHECK?)
            && (x.atExecution.NOT_REQUIRED? || x.atExecution == c.atExecution)
            && (forall i :: 0 <= i < |rs| ==> rs[i].atExecution.NOT_REQUIRED? || rs[i].atExecution == c.atExecution)
            && (c.atExecution == x.atExecution || exists i :: 0 <= i < |rs| && c.atExecution == rs[i].atExecution)
    decreases |rs|
  {
    hide LevelIndex, Tighten, ValidRequirement, HigherOf, TighterFreshness;
    if rs != [] {
      var rest, next := rs[1..], Tighten(ladders, x, rs[0]);
      assert forall i :: 0 <= i < |rest| ==> rest[i] == rs[i + 1];
      if next.Refused? {
        TightenAllRefused(ladders, next, rest);
      } else {
        TightenExactly(ladders, x, rs[0], next.value);
        TightenStaysValid(ladders, x, rs[0]);
        FoldKeeps(ladders, next.value, rest);
        var c := TightenAll(ladders, Ok(x), rs).value;
        assert c.atIssue.RECHECK? ==> x.atIssue.RECHECK? || exists i :: 0 <= i < |rs| && rs[i].atIssue.RECHECK? by {
          if i :| 0 <= i < |rest| && rest[i].atIssue.RECHECK? {
            assert rs[i + 1].atIssue.RECHECK?;
          }
        }
        if i :| 0 <= i < |rs| && rs[i].atIssue.RECHECK? {
          assert i > 0 ==> rest[i - 1].atIssue.RECHECK?;
        }
        if i :| 0 <= i < |rest| && c.atExecution == rest[i].atExecution {
          assert c.atExecution == rs[i + 1].atExecution;
        }
        forall i | 0 <= i < |rs| ensures rs[i].atExecution.NOT_REQUIRED? || rs[i].atExecution == c.atExecution {
          assert i > 0 ==> rs[i] == rest[i - 1];
        }
      }
    }
  }
}
