// Objects that start with a tag and a version and end with their body; grants and principal policies
// (packages/core/src/encoding.ts:35-51, 288-313; packages/core/src/authority.ts).
module Objects {
  import opened Common
  import opened Core
  import opened Canonical
  import opened Codec
  import opened CodecSets
  import opened Wire

  const AUTHORITY_TAG: string := "mandate-core/v1/authority"
  const PRINCIPAL_POLICY_TAG: string := "mandate-core/v1/principal-policy"

  function TagText(): Codec<string> {
    TextCodec(Always)
  }

  predicate ValidTag(tag: string) {
    |tag| <= 1024 && PlainText(tag)
  }

  function Frame<T(!new)>(c: Codec<T>): Codec<(string, (int, T))> {
    Pair(TagText(), Pair(UInt(2), c))
  }

  function Encode<T(!new)>(tag: string, c: Codec<T>, x: T): Bytes {
    Frame(c).write((tag, (1, x)))
  }

  function DecodeTagged<T(!new)>(tag: string, c: Codec<T>, bytes: Bytes): Option<Decoded<T>> {
    match Frame(c).read(bytes)
    case None => None
    case Some(d) =>
      if d.value.0 != tag || d.value.1.0 != 1 || d.used != |bytes| then None
      else Some(Decoded(d.value.1.1, d.used, d.marks))
  }

  lemma FrameGood<T(!new)>(c: Codec<T>)
    requires Good(c)
    ensures Good(Frame(c))
  {
    TextGood(Always);
    UIntGood(2);
    PairGood(UInt(2), c);
    PairGood(TagText(), Pair(UInt(2), c));
  }

  lemma FrameValid<T(!new)>(tag: string, c: Codec<T>, x: T)
    requires ValidTag(tag) && c.valid(x)
    ensures Frame(c).valid((tag, (1, x)))
  {
    assert Base(2) == 65536 by {
      assert Base(1) == 256;
    }
    assert Always(tag);
    assert TagText().valid(tag);
    assert UInt(2).valid(1);
  }

  // ---- The four laws every object type obeys ---------------------------------------------------

  lemma DecodeEncode<T(!new)>(tag: string, c: Codec<T>, x: T)
    requires Good(c) && ValidTag(tag) && c.valid(x)
    ensures DecodeTagged(tag, c, Encode(tag, c, x)) == Some(Decoded(x, |Encode(tag, c, x)|, 0))
  {
    hide Good;
    FrameGood(c);
    FrameValid(tag, c, x);
    hide Frame;
    Decodes(Frame(c), (tag, (1, x)), []);
    assert Encode(tag, c, x) + [] == Encode(tag, c, x);
  }

  // Re-encoding gives the accepted bytes back exactly when the reader dropped no byte-order mark.
  lemma EncodeDecode<T(!new)>(tag: string, c: Codec<T>, bytes: Bytes)
    requires Good(c) && DecodeTagged(tag, c, bytes).Some?
    ensures var d := DecodeTagged(tag, c, bytes).value;
            && c.valid(d.value)
            && |bytes| == |Encode(tag, c, d.value)| + 3 * d.marks
            && (Encode(tag, c, d.value) == bytes <==> d.marks == 0)
            && (!HasMark(bytes) ==> Encode(tag, c, d.value) == bytes)
  {
    hide Good;
    FrameGood(c);
    Accepted(Frame(c), bytes);
    var d := Frame(c).read(bytes).value;
    assert d.value == (tag, (1, d.value.1.1));
    assert bytes[..d.used] == bytes;
  }

  // An object's encoding with a byte-order mark put in front of its tag.
  function Marked<T(!new)>(tag: string, c: Codec<T>, x: T): Bytes {
    MarkedText(tag) + Pair(UInt(2), c).write((1, x))
  }

  lemma MarkedReads<T(!new)>(tag: string, c: Codec<T>, x: T)
    requires Good(c) && ValidTag(tag) && c.valid(x)
    ensures Frame(c).read(Marked(tag, c, x)) == Some(Decoded((tag, (1, x)), |Marked(tag, c, x)|, 1))
    ensures |Marked(tag, c, x)| == |Encode(tag, c, x)| + 3
  {
    hide Good, BigEndian, ReadText, ReadPair, ReadUInt, TextBytes;
    var body := Pair(UInt(2), c);
    BodyDecodes(c, x);
    assert Always(tag);
    MarkedTextDecodes(Always, tag, body.write((1, x)));
    hide MarkedText;
    PairReads(TagText(), body, MarkedText(tag), body.write((1, x)), tag, (1, x), 1, 0);
  }

  // So the encoding of every object of every type has a second accepted spelling.
  lemma SecondSpelling<T(!new)>(tag: string, c: Codec<T>, x: T)
    requires Good(c) && ValidTag(tag) && c.valid(x)
    ensures DecodeTagged(tag, c, Marked(tag, c, x)) == Some(Decoded(x, |Marked(tag, c, x)|, 1))
    ensures Marked(tag, c, x) != Encode(tag, c, x)
  {
    hide Good, Frame, Marked, Encode;
    MarkedReads(tag, c, x);
  }

  lemma BodyDecodes<T(!new)>(c: Codec<T>, x: T)
    requires Good(c) && c.valid(x)
    ensures var body := Pair(UInt(2), c);
            body.read(body.write((1, x))) == Some(Decoded((1, x), |body.write((1, x))|, 0))
  {
    var body := Pair(UInt(2), c);
    UIntGood(2);
    PairGood(UInt(2), c);
    FrameValid("", c, x);
    Decodes(body, (1, x), []);
    assert body.write((1, x)) + [] == body.write((1, x));
  }

  // ---- No encoding is a prefix of another object's ---------------------------------------------

  // Within one object type.
  lemma NoPrefixWithinType<T(!new)>(tag: string, c: Codec<T>, x: T, y: T, rest: Bytes)
    requires Good(c) && ValidTag(tag) && c.valid(x) && c.valid(y)
    requires Encode(tag, c, y) == Encode(tag, c, x) + rest
    ensures x == y && rest == []
  {
    FrameGood(c);
    FrameValid(tag, c, x);
    FrameValid(tag, c, y);
    PrefixFree(Frame(c), (tag, (1, x)), (tag, (1, y)), rest);
  }

  // Across object types: a tag names one type, so different tags never share a hash preimage.
  lemma NoPrefixAcrossTypes<T(!new), U(!new)>(tagX: string, cx: Codec<T>, x: T, tagY: string, cy: Codec<U>, y: U, rest: Bytes)
    requires Good(cx) && Good(cy) && ValidTag(tagX) && ValidTag(tagY) && cx.valid(x) && cy.valid(y)
    requires tagX != tagY
    ensures Encode(tagY, cy, y) != Encode(tagX, cx, x) + rest
  {
    hide Good;
    TextGood(Always);
    var bodyX, bodyY := Pair(UInt(2), cx).write((1, x)), Pair(UInt(2), cy).write((1, y));
    var head := TagText();
    assert Always(tagX) && Always(tagY);
    Decodes(head, tagX, bodyX + rest);
    Decodes(head, tagY, bodyY);
    assert Encode(tagX, cx, x) + rest == head.write(tagX) + (bodyX + rest);
    assert Encode(tagY, cy, y) == head.write(tagY) + bodyY;
  }

  // ---- Grants ----------------------------------------------------------------------------------

  function LineageCode(l: Lineage<Bytes>): int { if l.ROOT? then 1 else 2 }

  function RootOf(p: Party): Lineage<Bytes> { ROOT(p) }

  function IssuerIn(l: Lineage<Bytes>): Party { l.issuer }

  predicate IsRoot(l: Lineage<Bytes>) { l.ROOT? }

  function DelegationOf(p: (Bytes, Party)): Lineage<Bytes> { DELEGATION(p.0, p.1) }

  function DelegationIn(l: Lineage<Bytes>): (Bytes, Party) { (if l.DELEGATION? then l.parent else [], l.issuer) }

  predicate IsDelegation(l: Lineage<Bytes>) { l.DELEGATION? }

  function LineageBranch(code: int): Codec<Lineage<Bytes>> {
    if code == 1 then Mapped(PartyCodec(), RootOf, IssuerIn, IsRoot)
    else if code == 2 then Mapped(Pair(DigestCodec(false), PartyCodec()), DelegationOf, DelegationIn, IsDelegation)
    else Never()
  }

  function LineageCodec(): Codec<Lineage<Bytes>> {
    Choice(LineageCode, LineageBranch)
  }

  lemma LineageGood()
    ensures Good(LineageCodec())
  {
    hide Good, PartyCodec;
    forall code ensures Good(LineageBranch(code)) {
      PartyGood();
      DigestGood(false);
      PairGood(DigestCodec(false), PartyCodec());
      MappedGood(PartyCodec(), RootOf, IssuerIn, IsRoot);
      MappedGood(Pair(DigestCodec(false), PartyCodec()), DelegationOf, DelegationIn, IsDelegation);
      NeverGood<Lineage<Bytes>>();
    }
    ChoiceGood(LineageCode, LineageBranch);
  }

  // A grant's or policy's terms: no two with one key, ascending by encoding.
  function TermSet(max: nat): Codec<seq<Term>> {
    SetOf(TermCodec(), max, DistinctKeys)
  }

  lemma TermSetGood(max: nat)
    requires max <= 0xffff
    ensures Good(TermSet(max))
  {
    hide Good, TermCodec;
    TermGood();
    forall xs: seq<Term>, ys: seq<Term> | multiset(xs) == multiset(ys) && DistinctKeys(xs) ensures DistinctKeys(ys) {
      DistinctKeysIgnoresOrder(xs, ys);
    }
    SetOfGood(TermCodec(), max, DistinctKeys);
  }

  type GrantParts = (Lineage<Bytes>, (Party, (Party, (int, (int, (seq<Term>, int))))))

  function GrantOf(p: GrantParts): Grant<Bytes> {
    Grant(p.0, p.1.0, p.1.1.0, p.1.1.1.0, p.1.1.1.1.0, p.1.1.1.1.1.0, p.1.1.1.1.1.1)
  }

  function PartsOfGrant(g: Grant<Bytes>): GrantParts {
    (g.lineage, (g.principal, (g.holder, (g.notBefore, (g.expiresAt, (g.terms, g.nonce))))))
  }

  // A root is issued by its principal, and the validity window is satisfiable.
  predicate CoherentGrant(g: Grant<Bytes>) {
    (g.lineage.ROOT? ==> g.lineage.issuer == g.principal) && g.notBefore < g.expiresAt
  }

  function GrantTail(): Codec<(int, (int, (seq<Term>, int)))> {
    Pair(SInt(8), Pair(SInt(8), Pair(TermSet(MAX_GRANT_TERMS), UInt(8))))
  }

  function GrantShape(): Codec<GrantParts> {
    Pair(LineageCodec(), Pair(PartyCodec(), Pair(PartyCodec(), GrantTail())))
  }

  function GrantCodec(): Codec<Grant<Bytes>> {
    Mapped(GrantShape(), GrantOf, PartsOfGrant, CoherentGrant)
  }

  lemma GrantTailGood()
    ensures Good(GrantTail())
  {
    hide Good, TermSet, SInt, UInt;
    SIntGood(8);
    UIntGood(8);
    TermSetGood(MAX_GRANT_TERMS);
    PairGood(TermSet(MAX_GRANT_TERMS), UInt(8));
    PairGood(SInt(8), Pair(TermSet(MAX_GRANT_TERMS), UInt(8)));
    PairGood(SInt(8), Pair(SInt(8), Pair(TermSet(MAX_GRANT_TERMS), UInt(8))));
  }

  lemma GrantGood()
    ensures Good(GrantCodec())
  {
    hide Good, GrantTail, PartyCodec, LineageCodec;
    LineageGood();
    PartyGood();
    GrantTailGood();
    PairGood(PartyCodec(), GrantTail());
    PairGood(PartyCodec(), Pair(PartyCodec(), GrantTail()));
    PairGood(LineageCodec(), Pair(PartyCodec(), Pair(PartyCodec(), GrantTail())));
    MappedGood(GrantShape(), GrantOf, PartsOfGrant, CoherentGrant);
  }

  ghost predicate ValidGrant(g: Grant<Bytes>) {
    GrantCodec().valid(g)
  }

  function EncodeGrant(g: Grant<Bytes>): Bytes {
    Encode(AUTHORITY_TAG, GrantCodec(), g)
  }

  function DecodeGrant(bytes: Bytes): Option<Decoded<Grant<Bytes>>> {
    DecodeTagged(AUTHORITY_TAG, GrantCodec(), bytes)
  }

  lemma GrantRoundTrips(g: Grant<Bytes>)
    requires ValidGrant(g)
    ensures DecodeGrant(EncodeGrant(g)).Some? && DecodeGrant(EncodeGrant(g)).value.value == g
  {
    hide GrantCodec, Good;
    GrantGood();
    DecodeEncode(AUTHORITY_TAG, GrantCodec(), g);
  }

  lemma GrantReencodes(bytes: Bytes)
    requires DecodeGrant(bytes).Some?
    ensures var d := DecodeGrant(bytes).value;
            && ValidGrant(d.value)
            && (EncodeGrant(d.value) == bytes <==> d.marks == 0)
            && |bytes| == |EncodeGrant(d.value)| + 3 * d.marks
            && (!HasMark(bytes) ==> EncodeGrant(d.value) == bytes)
  {
    hide GrantCodec, Good, DecodeTagged, Encode;
    GrantGood();
    EncodeDecode(AUTHORITY_TAG, GrantCodec(), bytes);
  }

  // The law the encoding states for every accepted input fails for some accepted input of every grant.
  lemma GrantHasSecondSpelling(g: Grant<Bytes>)
    requires ValidGrant(g)
    ensures exists bytes :: DecodeGrant(bytes).Some? && DecodeGrant(bytes).value.value == g && EncodeGrant(g) != bytes
  {
    hide GrantCodec, Good, DecodeTagged, Encode, Marked;
    GrantGood();
    SecondSpelling(AUTHORITY_TAG, GrantCodec(), g);
    var bytes := Marked(AUTHORITY_TAG, GrantCodec(), g);
    assert DecodeGrant(bytes).Some? && DecodeGrant(bytes).value.value == g;
  }

  // ---- Principal policies ----------------------------------------------------------------------

  type PolicyShapeParts = (Party, (int, (seq<Term>, int)))

  function PolicyOf(p: PolicyShapeParts): Policy { Policy(p.0, p.1.0, p.1.1.0, p.1.1.1) }

  function PartsOfPolicy(p: Policy): PolicyShapeParts { (p.principal, (p.sequence, (p.terms, p.nonce))) }

  // A policy constrains and never grants.
  predicate ConstrainsOnly(p: Policy) {
    forall i :: 0 <= i < |p.terms| ==> p.terms[i].DimensionTerm? || p.terms[i].InvariantTerm? || p.terms[i].PolicyTerm?
  }

  function PolicyObjectShape(): Codec<PolicyShapeParts> {
    Pair(PartyCodec(), Pair(UInt(8), Pair(TermSet(MAX_GRANT_TERMS), UInt(8))))
  }

  function PolicyObjectCodec(): Codec<Policy> {
    Mapped(PolicyObjectShape(), PolicyOf, PartsOfPolicy, ConstrainsOnly)
  }

  lemma PolicyObjectGood()
    ensures Good(PolicyObjectCodec())
  {
    hide Good, TermSet, PartyCodec, UInt;
    PartyGood();
    UIntGood(8);
    TermSetGood(MAX_GRANT_TERMS);
    PairGood(TermSet(MAX_GRANT_TERMS), UInt(8));
    PairGood(UInt(8), Pair(TermSet(MAX_GRANT_TERMS), UInt(8)));
    PairGood(PartyCodec(), Pair(UInt(8), Pair(TermSet(MAX_GRANT_TERMS), UInt(8))));
    MappedGood(PolicyObjectShape(), PolicyOf, PartsOfPolicy, ConstrainsOnly);
  }

  lemma PolicyRoundTrips(p: Policy)
    requires PolicyObjectCodec().valid(p)
    ensures var bytes := Encode(PRINCIPAL_POLICY_TAG, PolicyObjectCodec(), p);
            DecodeTagged(PRINCIPAL_POLICY_TAG, PolicyObjectCodec(), bytes) == Some(Decoded(p, |bytes|, 0))
  {
    hide PolicyObjectCodec, Good;
    PolicyObjectGood();
    DecodeEncode(PRINCIPAL_POLICY_TAG, PolicyObjectCodec(), p);
  }

  // A grant and a policy never share an identity preimage, nor is one the start of the other.
  lemma GrantIsNeverAPolicy(g: Grant<Bytes>, p: Policy, rest: Bytes)
    requires ValidGrant(g) && PolicyObjectCodec().valid(p)
    ensures Encode(PRINCIPAL_POLICY_TAG, PolicyObjectCodec(), p) != EncodeGrant(g) + rest
    ensures EncodeGrant(g) != Encode(PRINCIPAL_POLICY_TAG, PolicyObjectCodec(), p) + rest
  {
    hide GrantCodec, PolicyObjectCodec, Good, Encode;
    GrantGood();
    PolicyObjectGood();
    assert AUTHORITY_TAG[16] != PRINCIPAL_POLICY_TAG[16];
    NoPrefixAcrossTypes(AUTHORITY_TAG, GrantCodec(), g, PRINCIPAL_POLICY_TAG, PolicyObjectCodec(), p, rest);
    NoPrefixAcrossTypes(PRINCIPAL_POLICY_TAG, PolicyObjectCodec(), p, AUTHORITY_TAG, GrantCodec(), g, rest);
  }

  // ---- Identity does not depend on listing order -----------------------------------------------

  lemma WriteTellsTermsApart()
    ensures Injective(TermCodec().write, TermCodec().valid)
  {
    hide Good;
    var c := TermCodec();
    TermGood();
    hide TermCodec;
    forall x, y | c.valid(x) && c.valid(y) && c.write(x) == c.write(y) ensures x == y {
      Decodes(c, x, []);
      Decodes(c, y, []);
    }
  }

  // The grant the validator builds from a listing of valid terms.
  function BuildGrant(g: Grant<Bytes>): Result<Grant<Bytes>> {
    match TermList(g.terms, TermCodec().write)
    case Refused(code) => Refused(code)
    case Ok(terms) => Ok(g.(terms := terms))
  }

  lemma GrantIgnoresListing(g: Grant<Bytes>, listing: seq<Term>)
    requires multiset(g.terms) == multiset(listing)
    requires forall t :: t in g.terms ==> TermCodec().valid(t)
    ensures BuildGrant(g) == BuildGrant(g.(terms := listing))
  {
    hide TermCodec;
    WriteTellsTermsApart();
    TermListIgnoresOrder(g.terms, listing, TermCodec().write, TermCodec().valid);
  }

  // What the validator builds is what the codec accepts: its terms are the sorted listing, each once.
  lemma BuiltTermsAreASet(g: Grant<Bytes>)
    requires |g.terms| <= MAX_GRANT_TERMS
    requires forall t :: t in g.terms ==> TermCodec().valid(t)
    ensures BuildGrant(g).Ok? <==> DistinctKeys(g.terms)
    ensures BuildGrant(g).Ok? ==> TermSet(MAX_GRANT_TERMS).valid(BuildGrant(g).value.terms)
    ensures BuildGrant(g).Ok? ==> multiset(BuildGrant(g).value.terms) == multiset(g.terms)
  {
    hide TermCodec;
    WriteTellsTermsApart();
    var c := TermCodec();
    SortSorts(g.terms, c.write);
    if DistinctKeys(g.terms) {
      DistinctTermsAscend(g.terms, c.write, c.valid);
      var sorted := Sort(g.terms, c.write);
      DistinctKeysIgnoresOrder(g.terms, sorted);
      forall i | 0 <= i < |sorted| ensures c.valid(sorted[i]) {
        assert sorted[i] in multiset(g.terms);
      }
    }
  }
}
