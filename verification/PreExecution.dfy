// The last check before an attempt is admitted (packages/control/src/preexecution.ts).
module PreExecution {
  import opened Common
  import opened Core
  import opened Canonical
  import opened StateNeeds

  datatype Kind =
    | STATE_REVALIDATION | MODULE_TRUST | ADAPTER_TRUST | CREDENTIAL_SCOPE | NONCE_SLOT
    | RUNTIME_PROVENANCE | RUNTIME_CERTIFICATION | HARNESS_ATTESTATION

  datatype Outcome = PASS | FAIL | UNKNOWN

  datatype Check = Check(kind: Kind, subject: string)

  datatype Finding = Finding(check: Check, outcome: Outcome, reason: string, evidence: Digest)

  function KindIndex(k: Kind): nat {
    match k
    case STATE_REVALIDATION => 0
    case MODULE_TRUST => 1
    case ADAPTER_TRUST => 2
    case CREDENTIAL_SCOPE => 3
    case NONCE_SLOT => 4
    case RUNTIME_PROVENANCE => 5
    case RUNTIME_CERTIFICATION => 6
    case HARNESS_ATTESTATION => 7
  }

  predicate ControlEvaluated(k: Kind) {
    k.STATE_REVALIDATION? || k.MODULE_TRUST? || k.ADAPTER_TRUST?
  }

  predicate Reserved(k: Kind) {
    k.RUNTIME_PROVENANCE? || k.RUNTIME_CERTIFICATION? || k.HARNESS_ATTESTATION?
  }

  predicate WellShaped(f: Finding) {
    ValidIdentifier(f.check.subject) && ValidIdentifier(f.reason) && Width(f.evidence) == 32 && !(f.evidence.Raw? && AllZero(f.evidence.bytes))
  }

  // Vocabulary order, then subject.
  function SortKey(f: Finding): Bytes {
    [KindIndex(f.check.kind) as Byte] + TextBytes(f.check.subject)
  }

  predicate DistinctChecks(fs: seq<Finding>) {
    forall i, j :: 0 <= i < j < |fs| ==> fs[i].check != fs[j].check
  }

  predicate Names(fs: seq<Finding>, c: Check) {
    exists i :: 0 <= i < |fs| && fs[i].check == c
  }

  // What a caller may supply: well-formed, adapter-evaluated, one per check.
  predicate Suppliable(supplied: seq<Finding>) {
    && DistinctChecks(supplied)
    && forall i :: 0 <= i < |supplied| ==>
         WellShaped(supplied[i]) && !ControlEvaluated(supplied[i].check.kind) && !Reserved(supplied[i].check.kind)
  }

  predicate Requirable(required: seq<Check>) {
    && (forall i, j :: 0 <= i < j < |required| ==> required[i] != required[j])
    && forall i :: 0 <= i < |required| ==> ValidIdentifier(required[i].subject)
  }

  // Required exactly what was evaluated, and all of it passed.
  predicate Accepts(required: seq<Check>, control: seq<Finding>, supplied: seq<Finding>) {
    && Suppliable(supplied)
    && Requirable(required)
    && (forall i :: 0 <= i < |required| ==> Names(control, required[i]) || Names(supplied, required[i]))
    && (forall i :: 0 <= i < |control| ==> control[i].check in required && control[i].outcome.PASS?)
    && (forall i :: 0 <= i < |supplied| ==> supplied[i].check in required && supplied[i].outcome.PASS?)
  }

  // The engine's own findings: control-evaluated kinds, one per check.
  predicate OwnFindings(control: seq<Finding>) {
    DistinctChecks(control) && forall i :: 0 <= i < |control| ==> ControlEvaluated(control[i].check.kind)
  }

  // All findings in canonical order, when they are acceptable.
  function Checked(required: seq<Check>, control: seq<Finding>, supplied: seq<Finding>): Result<seq<Finding>> {
    if Accepts(required, control, supplied) then Ok(Sort(control + supplied, SortKey)) else Refused("PRE_EXECUTION_FAILED")
  }

  lemma CombinedDistinct(control: seq<Finding>, supplied: seq<Finding>)
    requires OwnFindings(control) && Suppliable(supplied)
    ensures DistinctChecks(control + supplied)
  {
    var all := control + supplied;
    forall i, j | 0 <= i < j < |all| ensures all[i].check != all[j].check {
      if i < |control| <= j {
        assert ControlEvaluated(all[i].check.kind) && !ControlEvaluated(all[j].check.kind);
      }
    }
  }

  // `byKey` holds exactly the listed findings, each under its own check.
  ghost predicate Indexes(byKey: map<Check, Finding>, fs: seq<Finding>) {
    && (forall c :: c in byKey <==> Names(fs, c))
    && (forall k :: 0 <= k < |fs| ==> fs[k].check in byKey && byKey[fs[k].check] == fs[k])
  }

  lemma IndexesMore(byKey: map<Check, Finding>, fs: seq<Finding>, f: Finding)
    requires Indexes(byKey, fs) && f.check !in byKey
    ensures Indexes(byKey[f.check := f], fs + [f])
  {
    forall c ensures c in byKey[f.check := f] <==> Names(fs + [f], c) {
      NamesSnoc(fs, f, c);
    }
  }

  lemma SuppliableMore(fs: seq<Finding>, f: Finding)
    requires Suppliable(fs)
    ensures Suppliable(fs + [f]) <==>
              WellShaped(f) && !ControlEvaluated(f.check.kind) && !Reserved(f.check.kind) && !Names(fs, f.check)
  {
    var more := fs + [f];
    assert more[|fs|] == f;
    assert forall i :: 0 <= i < |fs| ==> more[i] == fs[i];
    if Names(fs, f.check) {
      var i :| 0 <= i < |fs| && fs[i].check == f.check;
      assert more[i].check == more[|fs|].check;
    }
  }

  lemma {:induction false} SuppliablePrefix(fs: seq<Finding>, n: nat)
    requires n <= |fs| && Suppliable(fs)
    ensures Suppliable(fs[..n])
  {
  }

  method GatherSupplied(supplied: seq<Finding>) returns (r: Result<map<Check, Finding>>)
    ensures r.Ok? <==> Suppliable(supplied)
    ensures r.Ok? ==> Indexes(r.value, supplied)
  {
    var byKey: map<Check, Finding> := map[];
    var i := 0;
    while i < |supplied|
      invariant 0 <= i <= |supplied|
      invariant Suppliable(supplied[..i]) && Indexes(byKey, supplied[..i])
    {
      var f := supplied[i];
      assert supplied[..i + 1] == supplied[..i] + [f];
      SuppliableMore(supplied[..i], f);
      if !WellShaped(f) || ControlEvaluated(f.check.kind) || Reserved(f.check.kind) || f.check in byKey {
        assert !Suppliable(supplied) by {
          if Suppliable(supplied) {
            SuppliablePrefix(supplied, i + 1);
          }
        }
        return Refused("REQUEST_INVALID");
      }
      IndexesMore(byKey, supplied[..i], f);
      byKey := byKey[f.check := f];
      i := i + 1;
    }
    assert supplied[..i] == supplied;
    r := Ok(byKey);
  }

  method AddOwn(supplied: seq<Finding>, control: seq<Finding>, given: map<Check, Finding>) returns (byKey: map<Check, Finding>)
    requires OwnFindings(control) && Suppliable(supplied) && Indexes(given, supplied)
    ensures Indexes(byKey, supplied + control)
  {
    byKey := given;
    assert supplied + control[..0] == supplied;
    var j := 0;
    while j < |control|
      invariant 0 <= j <= |control|
      invariant Indexes(byKey, supplied + control[..j])
    {
      assert supplied + control[..j + 1] == (supplied + control[..j]) + [control[j]];
      assert control[j].check !in byKey;
      IndexesMore(byKey, supplied + control[..j], control[j]);
      byKey := byKey[control[j].check := control[j]];
      j := j + 1;
    }
    assert control[..j] == control;
  }

  ghost predicate Matched(required: seq<Check>, byKey: map<Check, Finding>, results: seq<Finding>) {
    && |results| == |required|
    && forall k :: 0 <= k < |required| ==> required[k] in byKey && results[k] == byKey[required[k]] && results[k].outcome.PASS?
  }

  lemma RequirableMore(cs: seq<Check>, c: Check)
    requires Requirable(cs)
    ensures Requirable(cs + [c]) <==> ValidIdentifier(c.subject) && c !in cs
  {
    var more := cs + [c];
    assert more[|cs|] == c;
    assert forall i :: 0 <= i < |cs| ==> more[i] == cs[i];
    if c in cs {
      var i :| 0 <= i < |cs| && cs[i] == c;
      assert more[i] == more[|cs|];
    }
  }

  // Every requirement met once by a passing finding, and no finding left over.
  method MatchAll(required: seq<Check>, byKey: map<Check, Finding>) returns (r: Result<seq<Finding>>)
    ensures r.Ok? <==> Requirable(required) && (forall c :: c in byKey <==> c in required) && forall c :: c in byKey ==> byKey[c].outcome.PASS?
    ensures r.Ok? ==> Matched(required, byKey, r.value)
  {
    var requiredKeys: set<Check> := {};
    var results: seq<Finding> := [];
    var n := 0;
    while n < |required|
      invariant 0 <= n <= |required|
      invariant Requirable(required[..n]) && Matched(required[..n], byKey, results)
      invariant forall c :: c in requiredKeys <==> c in required[..n]
    {
      var q := required[n];
      assert required[..n + 1] == required[..n] + [q] && q in required;
      RequirableMore(required[..n], q);
      if !ValidIdentifier(q.subject) || q in requiredKeys {
        assert !Requirable(required[..n + 1]);
        return Refused("REQUEST_INVALID");
      }
      requiredKeys := requiredKeys + {q};
      if q !in byKey {
        return Refused("RESULT_MISSING");
      }
      if !byKey[q].outcome.PASS? {
        return Refused("PRE_EXECUTION_FAILED");
      }
      results := results + [byKey[q]];
      n := n + 1;
    }
    assert required[..n] == required;
    if exists c :: c in byKey && c !in requiredKeys {
      return Refused("PRE_EXECUTION_RESULT_UNREQUIRED");
    }
    forall c | c in byKey ensures byKey[c].outcome.PASS? {
      var k :| 0 <= k < |required| && required[k] == c;
      assert results[k] == byKey[c];
    }
    r := Ok(results);
  }

  // The source's one pass: index the findings, meet the requirements, leave nothing unrequired.
  method CheckPreExecution(required: seq<Check>, control: seq<Finding>, supplied: seq<Finding>) returns (r: Result<seq<Finding>>)
    requires OwnFindings(control)
    ensures r.Ok? == Checked(required, control, supplied).Ok?
    ensures r.Ok? ==> r == Checked(required, control, supplied)
  {
    var given := GatherSupplied(supplied);
    if given.Refused? {
      return Refused(given.code);
    }
    var byKey := AddOwn(supplied, control, given.value);
    var matched := MatchAll(required, byKey);
    AcceptsWhenIndexed(required, control, supplied, byKey);
    if matched.Refused? {
      return Refused(matched.code);
    }
    SameFindings(required, control, supplied, byKey, matched.value);
    r := Ok(Sort(matched.value, SortKey));
  }

  lemma NamesEither(a: seq<Finding>, b: seq<Finding>, c: Check)
    ensures Names(a + b, c) <==> Names(a, c) || Names(b, c)
  {
    if Names(a, c) {
      var i :| 0 <= i < |a| && a[i].check == c;
      assert (a + b)[i].check == c;
    }
    if Names(b, c) {
      var i :| 0 <= i < |b| && b[i].check == c;
      assert (a + b)[|a| + i].check == c;
    }
    if Names(a + b, c) {
      var i :| 0 <= i < |a + b| && (a + b)[i].check == c;
      assert if i < |a| then a[i].check == c else b[i - |a|].check == c;
    }
  }

  lemma AcceptsWhenIndexed(required: seq<Check>, control: seq<Finding>, supplied: seq<Finding>, byKey: map<Check, Finding>)
    requires Suppliable(supplied) && Indexes(byKey, supplied + control)
    ensures Accepts(required, control, supplied) <==>
              Requirable(required) && (forall c :: c in byKey <==> c in required) && forall c :: c in byKey ==> byKey[c].outcome.PASS?
  {
    var all := supplied + control;
    forall c ensures c in byKey <==> Names(supplied, c) || Names(control, c) {
      NamesEither(supplied, control, c);
    }
    assert forall k :: 0 <= k < |supplied| ==> all[k] == supplied[k];
    assert forall k :: 0 <= k < |control| ==> all[|supplied| + k] == control[k];
    if Accepts(required, control, supplied) {
      forall c | c in byKey ensures c in required && byKey[c].outcome.PASS? {
        var k :| 0 <= k < |all| && all[k].check == c;
        assert byKey[c] == all[k];
        assert if k < |supplied| then all[k] == supplied[k] else all[k] == control[k - |supplied|];
      }
      forall c | c in required ensures c in byKey {
        var k :| 0 <= k < |required| && required[k] == c;
      }
    }
    if Requirable(required) && (forall c :: c in byKey <==> c in required) && (forall c :: c in byKey ==> byKey[c].outcome.PASS?) {
      forall k | 0 <= k < |required| ensures Names(control, required[k]) || Names(supplied, required[k]) {
        assert required[k] in byKey;
      }
    }
  }

  lemma NamesSnoc(fs: seq<Finding>, f: Finding, c: Check)
    ensures Names(fs + [f], c) <==> Names(fs, c) || c == f.check
  {
    if Names(fs, c) {
      var i :| 0 <= i < |fs| && fs[i].check == c;
      assert (fs + [f])[i].check == c;
    }
    if c == f.check {
      assert (fs + [f])[|fs|].check == c;
    }
  }

  lemma SameFindings(required: seq<Check>, control: seq<Finding>, supplied: seq<Finding>, byKey: map<Check, Finding>, results: seq<Finding>)
    requires OwnFindings(control) && Suppliable(supplied) && Requirable(required)
    requires Indexes(byKey, supplied + control) && Matched(required, byKey, results) && forall c :: c in byKey <==> c in required
    ensures Sort(results, SortKey) == Sort(control + supplied, SortKey)
  {
    var all := control + supplied;
    CombinedDistinct(control, supplied);
    ResultsAreRequired(required, byKey, results);
    SameFindingMembers(required, control, supplied, byKey, results);
    hide Indexes, Matched, Requirable, Suppliable, OwnFindings;
    SameMultiset(results, all);
    forall i | 0 <= i < |all| ensures PlainText(all[i].check.subject) {
      assert all[i] in results;
    }
    SortSorts(results, SortKey);
    SortSorts(all, SortKey);
    DistinctFindingsAscend(all);
    DistinctFindingsAscend(results);
    AscendingUnique(Sort(results, SortKey), Sort(all, SortKey), SortKey);
  }

  lemma ResultsAreRequired(required: seq<Check>, byKey: map<Check, Finding>, results: seq<Finding>)
    requires Requirable(required) && Matched(required, byKey, results) && forall c :: c in byKey ==> byKey[c].check == c
    ensures DistinctChecks(results) && forall i :: 0 <= i < |results| ==> PlainText(results[i].check.subject)
  {
    forall i | 0 <= i < |results| ensures results[i].check == required[i] && PlainText(required[i].subject) {
      IdentifierIsPlain(required[i].subject);
    }
  }

  lemma SameFindingMembers(required: seq<Check>, control: seq<Finding>, supplied: seq<Finding>, byKey: map<Check, Finding>, results: seq<Finding>)
    requires Indexes(byKey, supplied + control) && Matched(required, byKey, results) && forall c :: c in byKey <==> c in required
    ensures forall f :: f in results <==> f in control + supplied
  {
    var all, listed := control + supplied, supplied + control;
    assert forall f :: f in all <==> f in control || f in supplied;
    assert forall f :: f in listed <==> f in supplied || f in control;
    forall f | f in results ensures f in listed {
      var k :| 0 <= k < |results| && results[k] == f;
      assert required[k] in byKey && Names(listed, required[k]);
      var p :| 0 <= p < |listed| && listed[p].check == required[k];
    }
    forall f | f in listed ensures f in results {
      var q :| 0 <= q < |listed| && listed[q] == f;
      assert f.check in byKey && f.check in required;
      var p :| 0 <= p < |required| && required[p] == f.check;
      assert results[p] == byKey[f.check];
    }
  }

  lemma {:induction false} SameMultiset<T>(xs: seq<T>, ys: seq<T>)
    requires forall i, j :: 0 <= i < j < |xs| ==> xs[i] != xs[j]
    requires forall i, j :: 0 <= i < j < |ys| ==> ys[i] != ys[j]
    requires forall x :: x in xs <==> x in ys
    ensures multiset(xs) == multiset(ys)
  {
    forall x ensures multiset(xs)[x] == multiset(ys)[x] {
      OnceEach(xs, x);
      OnceEach(ys, x);
      assert x in xs <==> x in ys;
    }
  }

  lemma {:induction false} OnceEach<T>(xs: seq<T>, x: T)
    requires forall i, j :: 0 <= i < j < |xs| ==> xs[i] != xs[j]
    ensures multiset(xs)[x] == if x in xs then 1 else 0
    decreases |xs|
  {
    if xs != [] {
      assert xs == [xs[0]] + xs[1..];
      assert forall i :: 0 <= i < |xs[1..]| ==> xs[1..][i] == xs[i + 1];
      OnceEach(xs[1..], x);
      assert xs[0] !in xs[1..];
    }
  }

  lemma IdentifierIsPlain(s: string)
    requires ValidIdentifier(s)
    ensures PlainText(s)
  {
  }

  lemma SortKeyTells(a: Finding, b: Finding)
    requires PlainText(a.check.subject) && PlainText(b.check.subject) && SortKey(a) == SortKey(b)
    ensures a.check == b.check
  {
    assert SortKey(a)[0] == SortKey(b)[0];
    assert SortKey(a)[1..] == TextBytes(a.check.subject) && SortKey(b)[1..] == TextBytes(b.check.subject);
    PlainTextInjective(a.check.subject, b.check.subject);
  }

  // Distinct checks about plain subjects are strictly ordered once sorted.
  lemma DistinctFindingsAscend(fs: seq<Finding>)
    requires DistinctChecks(fs) && forall i :: 0 <= i < |fs| ==> PlainText(fs[i].check.subject)
    ensures Ascending(Sort(fs, SortKey), SortKey)
  {
    hide PlainText, Sort;
    var sorted := Sort(fs, SortKey);
    SortSorts(fs, SortKey);
    SortedAscendsUnlessDuplicate(sorted, SortKey);
    forall i | 0 < i < |sorted| ensures SortKey(sorted[i - 1]) != SortKey(sorted[i]) {
      if SortKey(sorted[i - 1]) == SortKey(sorted[i]) {
        TwiceIn(sorted, i - 1, i);
        var p, q := PositionsOf(fs, sorted[i - 1], sorted[i]);
        SortKeyTells(fs[p], fs[q]);
        assert false;
      }
    }
  }

  // Accepted findings come out strictly sorted, and no finding is added or lost.
  lemma CheckedIsSorted(required: seq<Check>, control: seq<Finding>, supplied: seq<Finding>)
    requires OwnFindings(control) && Checked(required, control, supplied).Ok?
    ensures Ascending(Checked(required, control, supplied).value, SortKey)
    ensures multiset(Checked(required, control, supplied).value) == multiset(control) + multiset(supplied)
  {
    var all := control + supplied;
    CombinedDistinct(control, supplied);
    forall i | 0 <= i < |all| ensures PlainText(all[i].check.subject) {
      assert all[i].check in required;
      IdentifierIsPlain(all[i].check.subject);
    }
    DistinctFindingsAscend(all);
    SortSorts(all, SortKey);
  }

  const VOCABULARY: seq<Kind> :=
    [ STATE_REVALIDATION, MODULE_TRUST, ADAPTER_TRUST, CREDENTIAL_SCOPE, NONCE_SLOT,
      RUNTIME_PROVENANCE, RUNTIME_CERTIFICATION, HARNESS_ATTESTATION ]

  // By kind, in the vocabulary's order, then by subject.
  predicate Precedes(a: Check, b: Check) {
    || (exists i, j :: 0 <= i < j < |VOCABULARY| && VOCABULARY[i] == a.kind && VOCABULARY[j] == b.kind)
    || (a.kind == b.kind && Before(TextBytes(a.subject), TextBytes(b.subject)))
  }

  lemma KindIndexIs(k: Kind)
    ensures KindIndex(k) < |VOCABULARY| && VOCABULARY[KindIndex(k)] == k
  {
  }

  lemma BelowPrecedes(a: Finding, b: Finding)
    requires Below(SortKey(a), SortKey(b))
    ensures Precedes(a.check, b.check)
  {
    KindIndexIs(a.check.kind);
    KindIndexIs(b.check.kind);
    var x, y := SortKey(a), SortKey(b);
    assert x[1..] == TextBytes(a.check.subject) && y[1..] == TextBytes(b.check.subject);
    hide KindIndex, SortKey;
    if x[0] == y[0] {
      BelowIs(x[1..], y[1..]);
    } else {
      assert x[0] < y[0];
    }
  }

  // What is accepted comes out in the order of the vocabulary, and of the subjects within one kind.
  lemma CheckedInOrder(required: seq<Check>, control: seq<Finding>, supplied: seq<Finding>, i: nat, j: nat)
    requires OwnFindings(control) && Checked(required, control, supplied).Ok?
    requires i < j < |Checked(required, control, supplied).value|
    ensures var fs := Checked(required, control, supplied).value; Precedes(fs[i].check, fs[j].check)
  {
    var fs := Checked(required, control, supplied).value;
    CheckedIsSorted(required, control, supplied);
    hide Checked, SortKey, Precedes;
    AscendingAcross(fs, SortKey, i, j);
    BelowPrecedes(fs[i], fs[j]);
  }

  // ---- The digest an attempt commits to ----------------------------------------------------------

  function KindText(k: Kind): string {
    match k
    case STATE_REVALIDATION => "STATE_REVALIDATION"
    case MODULE_TRUST => "MODULE_TRUST"
    case ADAPTER_TRUST => "ADAPTER_TRUST"
    case CREDENTIAL_SCOPE => "CREDENTIAL_SCOPE"
    case NONCE_SLOT => "NONCE_SLOT"
    case RUNTIME_PROVENANCE => "RUNTIME_PROVENANCE"
    case RUNTIME_CERTIFICATION => "RUNTIME_CERTIFICATION"
    case HARNESS_ATTESTATION => "HARNESS_ATTESTATION"
  }

  function OutcomeText(o: Outcome): string {
    match o
    case PASS => "PASS"
    case FAIL => "FAIL"
    case UNKNOWN => "UNKNOWN"
  }

  function FindingDigest(f: Finding): Digest {
    Keccak([Text(KindText(f.check.kind)), Text(f.check.subject), Text(OutcomeText(f.outcome)), Text(f.reason), f.evidence])
  }

  function FindingsDigest(fs: seq<Finding>): Digest {
    Keccak([Text("mandate-core/v1/control/pre-execution"), Number(1), Number(|fs|)]
           + seq(|fs|, i requires 0 <= i < |fs| => FindingDigest(fs[i])))
  }

  // The evidence of one of the engine's own findings.
  function EvidenceDigest(c: Check, of: seq<Digest>): Digest {
    Keccak([Text("mandate-core/v1/control/pre-execution-evidence"), Number(1), Text(KindText(c.kind)), Text(c.subject), Number(|of|)] + of)
  }

  lemma KindTextTells(a: Kind, b: Kind)
    requires KindText(a) == KindText(b)
    ensures a == b
  {
    assert |KindText(a)| == |KindText(b)|;
    assert KindText(a)[0] == KindText(b)[0];
  }

  lemma FindingTells(f: Finding, g: Finding)
    requires FindingDigest(f) == FindingDigest(g)
    ensures f == g
  {
    var x, y := FindingDigest(f).parts, FindingDigest(g).parts;
    assert x[0] == y[0] && x[1] == y[1] && x[2] == y[2] && x[3] == y[3] && x[4] == y[4];
    KindTextTells(f.check.kind, g.check.kind);
    assert |OutcomeText(f.outcome)| == |OutcomeText(g.outcome)|;
    assert OutcomeText(f.outcome)[0] == OutcomeText(g.outcome)[0];
    hide KindText;
  }

  // An attempt's digest fixes every finding it was admitted on: kind, subject, outcome, reason and evidence.
  lemma FindingsTell(fs: seq<Finding>, gs: seq<Finding>)
    requires FindingsDigest(fs) == FindingsDigest(gs)
    ensures fs == gs
  {
    hide FindingDigest;
    var x, y := FindingsDigest(fs).parts, FindingsDigest(gs).parts;
    assert x[2] == y[2];
    forall i | 0 <= i < |fs| ensures fs[i] == gs[i] {
      assert x[3 + i] == FindingDigest(fs[i]) && y[3 + i] == FindingDigest(gs[i]);
      FindingTells(fs[i], gs[i]);
    }
  }

  // The order in which requirements, own findings or supplied findings are listed does not matter.
  lemma CheckedIgnoresOrder(required: seq<Check>, control: seq<Finding>, supplied: seq<Finding>,
                            required': seq<Check>, control': seq<Finding>, supplied': seq<Finding>)
    requires OwnFindings(control) && OwnFindings(control')
    requires multiset(required) == multiset(required') && multiset(control) == multiset(control') && multiset(supplied) == multiset(supplied')
    ensures Checked(required, control, supplied) == Checked(required', control', supplied')
  {
    if Accepts(required, control, supplied) {
      AcceptsPermuted(required, control, supplied, required', control', supplied');
      CheckedIsSorted(required, control, supplied);
      CheckedIsSorted(required', control', supplied');
      AscendingUnique(Checked(required, control, supplied).value, Checked(required', control', supplied').value, SortKey);
    } else if Accepts(required', control', supplied') {
      AcceptsPermuted(required', control', supplied', required, control, supplied);
    }
  }

  lemma AcceptsPermuted(required: seq<Check>, control: seq<Finding>, supplied: seq<Finding>,
                        required': seq<Check>, control': seq<Finding>, supplied': seq<Finding>)
    requires Accepts(required, control, supplied)
    requires multiset(required) == multiset(required') && multiset(control) == multiset(control') && multiset(supplied) == multiset(supplied')
    ensures Accepts(required', control', supplied')
  {
    SuppliablePermuted(supplied, supplied');
    RequirablePermuted(required, required');
    SameMembers(required, required');
    SameMembers(control, control');
    SameMembers(supplied, supplied');
    forall i | 0 <= i < |required'| ensures Names(control', required'[i]) || Names(supplied', required'[i]) {
      assert required'[i] in required;
      NamesPermuted(control, control', required'[i]);
      NamesPermuted(supplied, supplied', required'[i]);
    }
    forall i | 0 <= i < |control'| ensures control'[i].check in required' && control'[i].outcome.PASS? {
      assert control'[i] in control;
    }
    forall i | 0 <= i < |supplied'| ensures supplied'[i].check in required' && supplied'[i].outcome.PASS? {
      assert supplied'[i] in supplied;
    }
  }

  lemma NamesPermuted(xs: seq<Finding>, ys: seq<Finding>, c: Check)
    requires multiset(xs) == multiset(ys)
    ensures Names(xs, c) ==> Names(ys, c)
  {
    if Names(xs, c) {
      var i :| 0 <= i < |xs| && xs[i].check == c;
      SameMembers(xs, ys);
      assert xs[i] in ys;
    }
  }

  lemma SuppliablePermuted(xs: seq<Finding>, ys: seq<Finding>)
    requires Suppliable(xs) && multiset(xs) == multiset(ys)
    ensures Suppliable(ys)
  {
    SameMembers(xs, ys);
    forall i | 0 <= i < |ys| ensures WellShaped(ys[i]) && !ControlEvaluated(ys[i].check.kind) && !Reserved(ys[i].check.kind) {
      assert ys[i] in xs;
    }
    forall i, j | 0 <= i < j < |ys| ensures ys[i].check != ys[j].check {
      TwiceIn(ys, i, j);
      var p, q := PositionsOf(xs, ys[i], ys[j]);
      assert xs[Lesser(p, q)].check != xs[p + q - Lesser(p, q)].check;
    }
  }

  lemma RequirablePermuted(xs: seq<Check>, ys: seq<Check>)
    requires Requirable(xs) && multiset(xs) == multiset(ys)
    ensures Requirable(ys)
  {
    SameMembers(xs, ys);
    forall i | 0 <= i < |ys| ensures ValidIdentifier(ys[i].subject) {
      assert ys[i] in xs;
    }
    forall i, j | 0 <= i < j < |ys| ensures ys[i] != ys[j] {
      TwiceIn(ys, i, j);
      var p, q := PositionsOf(xs, ys[i], ys[j]);
      assert xs[Lesser(p, q)] != xs[p + q - Lesser(p, q)];
    }
  }
}
