// Codecs of the Core Canonical Encoding, built from parts that each satisfy one exact law
// (packages/core/src/encoding.ts, packages/kernel/src/encoding/{reader,writer}.ts).
module Codec {
  import opened Common

  // What a reader accepted: the value, the bytes it used, and how many byte-order marks the text decoder dropped.
  datatype Decoded<+T> = Decoded(value: T, used: nat, marks: nat)

  datatype Codec<!T(!new)> = Codec(valid: T -> bool, write: T -> Bytes, read: Bytes -> Option<Decoded<T>>)

  // decode(encode(x) ++ anything) = x, using exactly the encoding.
  ghost predicate RoundTrips<T(!new)>(c: Codec<T>) {
    forall x: T, rest: Bytes :: c.valid(x) ==> c.read(c.write(x) + rest) == Some(Decoded(x, |c.write(x)|, 0))
  }

  // Every accepted input re-encodes to itself, but for three bytes per dropped mark.
  ghost predicate Reencodes<T(!new)>(c: Codec<T>) {
    forall b: Bytes :: c.read(b).Some? ==> Accepts(c, b, c.read(b).value)
  }

  ghost predicate Accepts<T(!new)>(c: Codec<T>, b: Bytes, d: Decoded<T>) {
    && c.valid(d.value)
    && d.used <= |b|
    && d.used == |c.write(d.value)| + 3 * d.marks
    && (d.marks == 0 ==> b[..d.used] == c.write(d.value))
    && (d.marks > 0 ==> HasMark(b))
  }

  const MARK: Bytes := [0xEF, 0xBB, 0xBF]

  predicate MarkAt(b: Bytes, i: nat) {
    i + 3 <= |b| && b[i..i + 3] == MARK
  }

  // The bytes of the byte-order mark occur somewhere.
  ghost predicate HasMark(b: Bytes) {
    exists i: nat :: MarkAt(b, i)
  }

  lemma MarkInSuffix(b: Bytes, k: nat)
    requires k <= |b| && HasMark(b[k..])
    ensures HasMark(b)
  {
    var i: nat :| MarkAt(b[k..], i);
    assert b[k..][i..i + 3] == b[k + i..k + i + 3];
    assert MarkAt(b, k + i);
  }

  ghost predicate Good<T(!new)>(c: Codec<T>) {
    RoundTrips(c) && Reencodes(c)
  }

  lemma Decodes<T(!new)>(c: Codec<T>, x: T, rest: Bytes)
    requires Good(c) && c.valid(x)
    ensures c.read(c.write(x) + rest) == Some(Decoded(x, |c.write(x)|, 0))
  {
  }

  lemma Accepted<T(!new)>(c: Codec<T>, b: Bytes)
    requires Good(c) && c.read(b).Some?
    ensures Accepts(c, b, c.read(b).value)
  {
  }

  // No encoding is a proper prefix of another of the same codec, and distinct values have distinct encodings.
  lemma PrefixFree<T(!new)>(c: Codec<T>, x: T, y: T, rest: Bytes)
    requires Good(c) && c.valid(x) && c.valid(y) && c.write(y) == c.write(x) + rest
    ensures x == y && rest == []
  {
    Decodes(c, x, rest);
    Decodes(c, y, []);
    assert c.write(y) + [] == c.write(y);
  }

  // ---- Unsigned integers, big endian -----------------------------------------------------------

  function Base(width: nat): nat {
    if width == 0 then 1 else 256 * Base(width - 1)
  }

  function BigEndian(x: nat, width: nat): (r: Bytes)
    ensures |r| == width
  {
    if width == 0 then [] else BigEndian(x / 256, width - 1) + [(x % 256) as Byte]
  }

  function FromBigEndian(b: Bytes): nat {
    if b == [] then 0 else FromBigEndian(b[..|b| - 1]) * 256 + b[|b| - 1] as int
  }

  lemma {:induction false} BigEndianInverse(x: nat, width: nat)
    requires x < Base(width)
    ensures FromBigEndian(BigEndian(x, width)) == x
  {
    if width > 0 {
      BigEndianInverse(x / 256, width - 1);
      var b := BigEndian(x, width);
      assert b[..|b| - 1] == BigEndian(x / 256, width - 1);
    }
  }

  lemma {:induction false} FromBigEndianInverse(b: Bytes)
    ensures FromBigEndian(b) < Base(|b|) && BigEndian(FromBigEndian(b), |b|) == b
  {
    if b != [] {
      FromBigEndianInverse(b[..|b| - 1]);
      var x := FromBigEndian(b);
      assert x / 256 == FromBigEndian(b[..|b| - 1]) && x % 256 == b[|b| - 1] as int;
      assert b == b[..|b| - 1] + [b[|b| - 1]];
    }
  }

  function ReadUInt(b: Bytes, width: nat): Option<Decoded<int>> {
    if |b| < width then None else Some(Decoded(FromBigEndian(b[..width]), width, 0))
  }

  function UInt(width: nat): Codec<int> {
    Codec(
      (x: int) => 0 <= x < Base(width),
      (x: int) => BigEndian(if x < 0 then 0 else x, width),
      (b: Bytes) => ReadUInt(b, width))
  }

  lemma UIntGood(width: nat)
    ensures Good(UInt(width))
  {
    var c := UInt(width);
    forall x: int, rest: Bytes | c.valid(x) ensures c.read(c.write(x) + rest) == Some(Decoded(x, |c.write(x)|, 0)) {
      assert c.write(x) == BigEndian(x, width);
      assert (c.write(x) + rest)[..width] == BigEndian(x, width);
      BigEndianInverse(x, width);
    }
    forall b: Bytes | c.read(b).Some? ensures Accepts(c, b, c.read(b).value) {
      assert ReadUInt(b, width).Some?;
      FromBigEndianInverse(b[..width]);
    }
  }

  // Two's complement over the same bytes.
  function ReadSInt(b: Bytes, width: nat): Option<Decoded<int>> {
    if |b| < width then None
    else
      var raw := FromBigEndian(b[..width]);
      Some(Decoded(if 2 * raw >= Base(width) then raw - Base(width) else raw, width, 0))
  }

  function Unsigned(x: int, width: nat): nat {
    if x >= 0 then x else if x + Base(width) >= 0 then x + Base(width) else 0
  }

  function SInt(width: nat): Codec<int> {
    Codec(
      (x: int) => 0 <= 2 * x + Base(width) && 2 * x < Base(width),
      (x: int) => BigEndian(Unsigned(x, width), width),
      (b: Bytes) => ReadSInt(b, width))
  }

  lemma {:induction false} BaseEven(width: nat)
    requires width > 0
    ensures Base(width) % 2 == 0 && Base(width) > 0
  {
    if width > 1 {
      BaseEven(width - 1);
    }
    assert Base(width) == 2 * (128 * Base(width - 1));
  }

  lemma SIntGood(width: nat)
    requires width > 0
    ensures Good(SInt(width))
  {
    var c := SInt(width);
    BaseEven(width);
    forall x: int, rest: Bytes | c.valid(x) ensures c.read(c.write(x) + rest) == Some(Decoded(x, |c.write(x)|, 0)) {
      assert c.write(x) == BigEndian(Unsigned(x, width), width);
      assert (c.write(x) + rest)[..width] == BigEndian(Unsigned(x, width), width);
      BigEndianInverse(Unsigned(x, width), width);
    }
    forall b: Bytes | c.read(b).Some? ensures Accepts(c, b, c.read(b).value) {
      assert ReadSInt(b, width).Some?;
      FromBigEndianInverse(b[..width]);
    }
  }

  // ---- Fixed and length-prefixed bytes ---------------------------------------------------------

  // A digest that may be any 32 bytes, or must not be all zero.
  function DigestCodec(nonZero: bool): Codec<Bytes> {
    Codec(
      (x: Bytes) => |x| == 32 && (nonZero ==> !AllZero(x)),
      (x: Bytes) => x,
      (b: Bytes) => if |b| < 32 || (nonZero && AllZero(b[..32])) then None else Some(Decoded(b[..32], 32, 0)))
  }

  lemma DigestGood(nonZero: bool)
    ensures Good(DigestCodec(nonZero))
  {
    var c := DigestCodec(nonZero);
    forall x: Bytes, rest: Bytes | c.valid(x) ensures c.read(c.write(x) + rest) == Some(Decoded(x, |c.write(x)|, 0)) {
      assert (x + rest)[..32] == x;
    }
  }

  function ReadOpaque(b: Bytes, max: nat): Option<Decoded<Bytes>> {
    if |b| < 2 then None
    else
      var n := FromBigEndian(b[..2]);
      if n > max || |b| < 2 + n then None else Some(Decoded(b[2..2 + n], 2 + n, 0))
  }

  function OpaqueCodec(max: nat): Codec<Bytes> {
    Codec((x: Bytes) => |x| <= max, (x: Bytes) => BigEndian(|x|, 2) + x, (b: Bytes) => ReadOpaque(b, max))
  }

  lemma OpaqueGood(max: nat)
    requires max <= 0xffff
    ensures Good(OpaqueCodec(max))
  {
    var c := OpaqueCodec(max);
    assert Base(2) == 65536 by {
      assert Base(1) == 256;
    }
    forall x: Bytes, rest: Bytes | c.valid(x) ensures c.read(c.write(x) + rest) == Some(Decoded(x, |c.write(x)|, 0)) {
      var b := c.write(x) + rest;
      BigEndianInverse(|x|, 2);
      assert b[..2] == BigEndian(|x|, 2);
      assert b[2..2 + |x|] == x;
    }
    forall b: Bytes | c.read(b).Some? ensures Accepts(c, b, c.read(b).value) {
      FromBigEndianInverse(b[..2]);
      var n := FromBigEndian(b[..2]);
      assert b[..2 + n] == b[..2] + b[2..2 + n];
    }
  }

  // ---- Text ------------------------------------------------------------------------------------

  // The decoder drops one leading byte-order mark.
  function Unmarked(raw: Bytes): Bytes {
    if |raw| >= 3 && raw[..3] == MARK then raw[3..] else raw
  }

  function Marks(raw: Bytes): nat {
    if |raw| >= 3 && raw[..3] == MARK then 1 else 0
  }

  predicate PlainBytes(raw: Bytes) {
    forall i :: 0 <= i < |raw| ==> raw[i] < 128
  }

  function TextOf(raw: Bytes): string {
    seq(|raw|, i requires 0 <= i < |raw| => raw[i] as char)
  }

  // Text the field's own rule accepts is plain ASCII, so any other byte sequence is refused after decoding.
  function ReadText(b: Bytes, rule: string -> bool): Option<Decoded<string>> {
    if |b| < 2 then None
    else
      var n := FromBigEndian(b[..2]);
      var end := 2 + n;
      if |b| < end then None
      else
        var raw := b[2..end];
        var plain := Unmarked(raw);
        if !PlainBytes(plain) || !rule(TextOf(plain)) then None else Some(Decoded(TextOf(plain), end, Marks(raw)))
  }

  function TextCodec(rule: string -> bool): Codec<string> {
    Codec(
      (s: string) => rule(s) && PlainText(s) && |s| <= 1024,
      (s: string) => BigEndian(|s|, 2) + TextBytes(s),
      (b: Bytes) => ReadText(b, (s: string) => rule(s) && |s| <= 1024))
  }

  lemma TextBack(s: string)
    requires PlainText(s)
    ensures PlainBytes(TextBytes(s)) && TextOf(TextBytes(s)) == s
  {
  }

  lemma BytesBack(raw: Bytes)
    requires PlainBytes(raw)
    ensures PlainText(TextOf(raw)) && TextBytes(TextOf(raw)) == raw
  {
  }

  lemma TextGood(rule: string -> bool)
    ensures Good(TextCodec(rule))
  {
    var c := TextCodec(rule);
    assert Base(2) == 65536 by {
      assert Base(1) == 256;
    }
    forall x: string, rest: Bytes | c.valid(x) ensures c.read(c.write(x) + rest) == Some(Decoded(x, |c.write(x)|, 0)) {
      var b := c.write(x) + rest;
      BigEndianInverse(|x|, 2);
      TextBack(x);
      assert b[..2] == BigEndian(|x|, 2);
      assert b[2..2 + |x|] == TextBytes(x);
      PlainHasNoMark(TextBytes(x));
    }
    forall b: Bytes | c.read(b).Some? ensures Accepts(c, b, c.read(b).value) {
      TextAccepted(rule, b);
    }
  }

  lemma PlainHasNoMark(raw: Bytes)
    requires PlainBytes(raw)
    ensures Unmarked(raw) == raw && Marks(raw) == 0
  {
    if |raw| >= 3 {
      assert raw[..3][0] == raw[0] && MARK[0] == 0xEF;
    }
  }

  lemma TextAccepted(rule: string -> bool, b: Bytes)
    requires TextCodec(rule).read(b).Some?
    ensures Accepts(TextCodec(rule), b, TextCodec(rule).read(b).value)
  {
    var n := FromBigEndian(b[..2]);
    FromBigEndianInverse(b[..2]);
    hide BigEndian, FromBigEndian;
    var end := 2 + n;
    var raw := b[2..end];
    BytesBack(Unmarked(raw));
    hide TextBytes, TextOf, PlainBytes, PlainText;
    if Marks(raw) > 0 {
      MarkStarts(b, raw);
    }
    assert b[..end] == b[..2] + raw;
  }

  lemma MarkStarts(b: Bytes, raw: Bytes)
    requires 2 + |raw| <= |b| && raw == b[2..2 + |raw|] && Marks(raw) > 0
    ensures HasMark(b)
  {
    assert raw[..3] == b[2..5];
    assert MarkAt(b, 2);
  }

  function MarkedText(s: string): Bytes {
    BigEndian(|s| + 3, 2) + MARK + TextBytes(s)
  }

  // What the reader makes of a length and as many bytes.
  lemma TextReads(rule: string -> bool, head: Bytes, raw: Bytes, rest: Bytes)
    requires |head| == 2 && FromBigEndian(head) == |raw|
    ensures var plain := Unmarked(raw);
            ReadText(head + raw + rest, rule) ==
              if !PlainBytes(plain) || !rule(TextOf(plain)) then None else Some(Decoded(TextOf(plain), |head + raw|, Marks(raw)))
  {
    hide FromBigEndian, Unmarked, Marks, TextOf, PlainBytes;
    var b := head + raw + rest;
    var end := 2 + |raw|;
    assert b[..2] == head && b[2..end] == raw;
  }

  // A marked text reads as the unmarked one: the accepted bytes are three longer than what they decode to encodes to.
  lemma MarkedTextDecodes(rule: string -> bool, s: string, rest: Bytes)
    requires TextCodec(rule).valid(s)
    ensures TextCodec(rule).read(MarkedText(s) + rest) == Some(Decoded(s, |MarkedText(s)|, 1))
    ensures |MarkedText(s)| == |TextCodec(rule).write(s)| + 3
  {
    var n := |s| + 3;
    assert Base(2) == 65536 by {
      assert Base(1) == 256;
    }
    BigEndianInverse(n, 2);
    var head, text := BigEndian(n, 2), TextBytes(s);
    TextBack(s);
    MarkIsDropped(text);
    hide BigEndian, FromBigEndian, Base, TextBytes, TextOf, PlainBytes, PlainText, ReadText;
    TextReads((x: string) => rule(x) && |x| <= 1024, head, MARK + text, rest);
    assert MarkedText(s) == head + (MARK + text);
  }

  lemma MarkIsDropped(text: Bytes)
    ensures Unmarked(MARK + text) == text && Marks(MARK + text) == 1
  {
    var raw := MARK + text;
    assert raw[..3] == MARK && raw[3..] == text;
  }

  // ---- Pairs and renamings ---------------------------------------------------------------------

  function ReadPair<A(!new), B(!new)>(a: Codec<A>, b: Codec<B>, bytes: Bytes): Option<Decoded<(A, B)>> {
    match a.read(bytes)
    case None => None
    case Some(x) =>
      if x.used > |bytes| then None
      else match b.read(bytes[x.used..])
        case None => None
        case Some(y) => Some(Decoded((x.value, y.value), x.used + y.used, x.marks + y.marks))
  }

  function Pair<A(!new), B(!new)>(a: Codec<A>, b: Codec<B>): Codec<(A, B)> {
    Codec(
      (x: (A, B)) => a.valid(x.0) && b.valid(x.1),
      (x: (A, B)) => a.write(x.0) + b.write(x.1),
      (bytes: Bytes) => ReadPair(a, b, bytes))
  }

  lemma PairGood<A(!new), B(!new)>(a: Codec<A>, b: Codec<B>)
    requires Good(a) && Good(b)
    ensures Good(Pair(a, b))
  {
    var c := Pair(a, b);
    forall x: (A, B), rest: Bytes | c.valid(x) ensures c.read(c.write(x) + rest) == Some(Decoded(x, |c.write(x)|, 0)) {
      assert c.write(x) + rest == a.write(x.0) + (b.write(x.1) + rest);
      Decodes(a, x.0, b.write(x.1) + rest);
      Decodes(b, x.1, rest);
      assert (a.write(x.0) + (b.write(x.1) + rest))[|a.write(x.0)|..] == b.write(x.1) + rest;
    }
    forall bytes: Bytes | c.read(bytes).Some? ensures Accepts(c, bytes, c.read(bytes).value) {
      Accepted(a, bytes);
      var x := a.read(bytes).value;
      Accepted(b, bytes[x.used..]);
      var y := b.read(bytes[x.used..]).value;
      assert bytes[..x.used + y.used] == bytes[..x.used] + bytes[x.used..][..y.used];
      if y.marks > 0 {
        MarkInSuffix(bytes, x.used);
      }
    }
  }

  // Two accepted inputs, one after the other, are one accepted input of the pair.
  lemma PairReads<A(!new), B(!new)>(a: Codec<A>, b: Codec<B>, first: Bytes, second: Bytes, x: A, y: B, m: nat, n: nat)
    requires a.read(first + second) == Some(Decoded(x, |first|, m))
    requires b.read(second) == Some(Decoded(y, |second|, n))
    ensures Pair(a, b).read(first + second) == Some(Decoded((x, y), |first| + |second|, m + n))
  {
    assert (first + second)[|first|..] == second;
  }

  function ReadMapped<A(!new), B(!new)>(a: Codec<A>, to: A -> B, rule: B -> bool, bytes: Bytes): Option<Decoded<B>> {
    match a.read(bytes)
    case None => None
    case Some(x) => if rule(to(x.value)) then Some(Decoded(to(x.value), x.used, x.marks)) else None
  }

  // The same bytes under another shape, with the object's own validation on top.
  function Mapped<A(!new), B(!new)>(a: Codec<A>, to: A -> B, from: B -> A, rule: B -> bool): Codec<B> {
    Codec(
      (x: B) => rule(x) && a.valid(from(x)),
      (x: B) => a.write(from(x)),
      (bytes: Bytes) => ReadMapped(a, to, rule, bytes))
  }

  ghost predicate Inverse<A(!new), B(!new)>(a: Codec<A>, to: A -> B, from: B -> A, rule: B -> bool) {
    && (forall x: B :: rule(x) && a.valid(from(x)) ==> to(from(x)) == x)
    && (forall y: A :: a.valid(y) && rule(to(y)) ==> from(to(y)) == y)
  }

  lemma MappedGood<A(!new), B(!new)>(a: Codec<A>, to: A -> B, from: B -> A, rule: B -> bool)
    requires Good(a) && Inverse(a, to, from, rule)
    ensures Good(Mapped(a, to, from, rule))
  {
    var c := Mapped(a, to, from, rule);
    forall x: B, rest: Bytes | c.valid(x) ensures c.read(c.write(x) + rest) == Some(Decoded(x, |c.write(x)|, 0)) {
      Decodes(a, from(x), rest);
    }
    forall bytes: Bytes | c.read(bytes).Some? ensures Accepts(c, bytes, c.read(bytes).value) {
      Accepted(a, bytes);
    }
  }

  // ---- Choices by wire code, and nullables -----------------------------------------------------

  function ReadChoice<T(!new)>(code: T -> int, branch: int -> Codec<T>, bytes: Bytes): Option<Decoded<T>> {
    if bytes == [] then None
    else match branch(bytes[0]).read(bytes[1..])
      case None => None
      case Some(x) => if code(x.value) == bytes[0] as int then Some(Decoded(x.value, x.used + 1, x.marks)) else None
  }

  // One byte says which variant follows; a code no variant has is refused by its branch.
  function Choice<T(!new)>(code: T -> int, branch: int -> Codec<T>): Codec<T> {
    Codec(
      (x: T) => 0 <= code(x) < 256 && branch(code(x)).valid(x),
      (x: T) => [(if 0 <= code(x) < 256 then code(x) else 0) as Byte] + branch(code(x)).write(x),
      (bytes: Bytes) => ReadChoice(code, branch, bytes))
  }

  lemma ChoiceGood<T(!new)>(code: T -> int, branch: int -> Codec<T>)
    requires forall k :: Good(branch(k))
    ensures Good(Choice(code, branch))
  {
    var c := Choice(code, branch);
    forall x: T, rest: Bytes | c.valid(x) ensures c.read(c.write(x) + rest) == Some(Decoded(x, |c.write(x)|, 0)) {
      var b := branch(code(x));
      assert (c.write(x) + rest)[1..] == b.write(x) + rest;
      Decodes(b, x, rest);
    }
    forall bytes: Bytes | c.read(bytes).Some? ensures Accepts(c, bytes, c.read(bytes).value) {
      var b := branch(bytes[0]);
      Accepted(b, bytes[1..]);
      var x := b.read(bytes[1..]).value;
      assert bytes[..x.used + 1] == [bytes[0]] + bytes[1..][..x.used];
      if x.marks > 0 {
        MarkInSuffix(bytes, 1);
      }
    }
  }

  // ---- Enumerations: the wire code is the position in the frozen list, from 1 ------------------

  function ReadCode<T(!new)>(all: seq<T>, bytes: Bytes): Option<Decoded<T>> {
    if bytes == [] || bytes[0] == 0 || bytes[0] as int > |all| then None else Some(Decoded(all[bytes[0] - 1], 1, 0))
  }

  function CodeOf<T(!new, ==)>(all: seq<T>, x: T): nat {
    if all == [] || all[0] == x then 1 else 1 + CodeOf(all[1..], x)
  }

  function Enumerated<T(!new, ==)>(all: seq<T>): Codec<T> {
    Codec(
      (x: T) => x in all,
      (x: T) => [(CodeOf(all, x) % 256) as Byte],
      (bytes: Bytes) => ReadCode(all, bytes))
  }

  ghost predicate Distinct<T(!new)>(all: seq<T>) {
    forall i, j :: 0 <= i < j < |all| ==> all[i] != all[j]
  }

  lemma {:induction false} CodeOfMember<T(!new)>(all: seq<T>, x: T)
    requires x in all
    ensures 1 <= CodeOf(all, x) <= |all| && all[CodeOf(all, x) - 1] == x
  {
    if all[0] != x {
      assert x in all[1..];
      CodeOfMember(all[1..], x);
    }
  }

  lemma EnumeratedGood<T(!new)>(all: seq<T>)
    requires |all| < 256 && Distinct(all)
    ensures Good(Enumerated(all))
  {
    var c := Enumerated(all);
    forall x: T, rest: Bytes | c.valid(x) ensures c.read(c.write(x) + rest) == Some(Decoded(x, |c.write(x)|, 0)) {
      CodeOfMember(all, x);
      assert (c.write(x) + rest)[0] == c.write(x)[0];
    }
    forall bytes: Bytes | c.read(bytes).Some? ensures Accepts(c, bytes, c.read(bytes).value) {
      var x := all[bytes[0] - 1];
      CodeOfMember(all, x);
      assert CodeOf(all, x) == bytes[0];
    }
  }

  // A variant without a body, and one that does not exist.
  function Constant<T(!new, ==)>(k: T): Codec<T> {
    Codec((x: T) => x == k, (x: T) => [], (b: Bytes) => Some(Decoded(k, 0, 0)))
  }

  function Never<T(!new)>(): Codec<T> {
    Codec((x: T) => false, (x: T) => [], (b: Bytes) => None)
  }

  lemma ConstantGood<T(!new)>(k: T)
    ensures Good(Constant(k))
  {
    var c := Constant(k);
    forall x: T, rest: Bytes | c.valid(x) ensures c.read(c.write(x) + rest) == Some(Decoded(x, |c.write(x)|, 0)) {
    }
  }

  lemma NeverGood<T(!new)>()
    ensures Good(Never<T>())
  {
  }

  // A presence flag of exactly 0 or 1, then the value if present.
  function ReadNullable<T(!new)>(a: Codec<T>, bytes: Bytes): Option<Decoded<Option<T>>> {
    if bytes == [] || bytes[0] > 1 then None
    else if bytes[0] == 0 then Some(Decoded(None, 1, 0))
    else match a.read(bytes[1..])
      case None => None
      case Some(x) => Some(Decoded(Some(x.value), x.used + 1, x.marks))
  }

  function Nullable<T(!new)>(a: Codec<T>): Codec<Option<T>> {
    Codec(
      (x: Option<T>) => x.Some? ==> a.valid(x.value),
      (x: Option<T>) => if x.None? then [0] else [1] + a.write(x.value),
      (bytes: Bytes) => ReadNullable(a, bytes))
  }

  lemma NullableGood<T(!new)>(a: Codec<T>)
    requires Good(a)
    ensures Good(Nullable(a))
  {
    var c := Nullable(a);
    forall x: Option<T>, rest: Bytes | c.valid(x) ensures c.read(c.write(x) + rest) == Some(Decoded(x, |c.write(x)|, 0)) {
      if x.Some? {
        assert (c.write(x) + rest)[1..] == a.write(x.value) + rest;
        Decodes(a, x.value, rest);
      }
    }
    forall bytes: Bytes | c.read(bytes).Some? ensures Accepts(c, bytes, c.read(bytes).value) {
      if bytes[0] == 0 {
        assert bytes[..1] == [0];
      } else {
        Accepted(a, bytes[1..]);
        var x := a.read(bytes[1..]).value;
        assert bytes[..x.used + 1] == [1] + bytes[1..][..x.used];
        if x.marks > 0 {
          MarkInSuffix(bytes, 1);
        }
      }
    }
  }
}
