// The head/tail encoding of call arguments and a decoder after "Formal Specification of the Encoding" in the
// Solidity Contract ABI Specification (packages/evm-robinhood/src/abi.ts:41-152;
// packages/adapter-robinhood/src/onchain.ts:67-86).
module Abi {
  import opened Common
  import opened Codec

  // Tuple fields are taken by position.
  datatype AbiType =
    | UintT(bits: nat)
    | IntT(bits: nat)
    | AddressT
    | Bytes32T
    | BoolT
    | StringT
    | BytesT
    | ArrayT(of: AbiType)
    | TupleT(fields: seq<AbiType>)

  datatype AbiValue = Num(n: int) | Flag(b: bool) | Octets(bytes: Bytes) | Items(items: seq<AbiValue>)

  predicate IsDynamic(t: AbiType) {
    match t
    case StringT => true
    case BytesT => true
    case ArrayT(_) => true
    case TupleT(fields) => exists i :: 0 <= i < |fields| && IsDynamic(fields[i])
    case _ => false
  }

  // How wide a static value is where it stands: the sum of its parts for a tuple, 32 otherwise.
  function StaticSize(t: AbiType): nat {
    match t
    case TupleT(fields) => StaticSizes(fields)
    case _ => 32
  }

  function StaticSizes(ts: seq<AbiType>): nat {
    if ts == [] then 0 else StaticSize(ts[0]) + StaticSizes(ts[1..])
  }

  function HeadSize(ts: seq<AbiType>): nat {
    if ts == [] then 0 else (if IsDynamic(ts[0]) then 32 else StaticSize(ts[0])) + HeadSize(ts[1..])
  }

  function Pow2(k: nat): nat {
    if k == 0 then 1 else 2 * Pow2(k - 1)
  }

  // One more than a 32-byte word can hold.
  function WordLimit(): nat {
    Base(32)
  }

  function Repeat(t: AbiType, n: nat): seq<AbiType> {
    if n == 0 then [] else [t] + Repeat(t, n - 1)
  }

  lemma {:induction false} RepeatIs(t: AbiType, n: nat)
    ensures |Repeat(t, n)| == n && forall i :: 0 <= i < n ==> Repeat(t, n)[i] == t
  {
    if n > 0 {
      RepeatIs(t, n - 1);
    }
  }

  // What the encoder accepts of a type; anything else makes it throw.
  predicate WellTyped(t: AbiType, v: AbiValue)
    decreases v
  {
    match t
    case UintT(bits) => bits <= 256 && v.Num? && 0 <= v.n < Pow2(bits)
    case IntT(bits) => 1 <= bits <= 256 && v.Num? && 0 <= v.n + Pow2(bits - 1) && v.n < Pow2(bits - 1)
    case AddressT => v.Octets? && |v.bytes| == 20
    case Bytes32T => v.Octets? && |v.bytes| == 32
    case BoolT => v.Flag?
    case StringT => v.Octets?
    case BytesT => v.Octets?
    case ArrayT(of) => v.Items? && |v.items| < WordLimit() && forall i :: 0 <= i < |v.items| ==> WellTyped(of, v.items[i])
    case TupleT(fields) =>
      v.Items? && |v.items| == |fields| && forall i :: 0 <= i < |fields| ==> WellTyped(fields[i], v.items[i])
  }

  predicate AllTyped(ts: seq<AbiType>, vs: seq<AbiValue>) {
    |ts| == |vs| && forall i :: 0 <= i < |ts| ==> WellTyped(ts[i], vs[i])
  }

  // ---- Encoding --------------------------------------------------------------------------------

  function Word(n: int): (r: Bytes)
    ensures |r| == 32
  {
    BigEndian(if n < 0 then 0 else n, 32)
  }

  function Zeros(n: nat): (r: Bytes)
    ensures |r| == n
  {
    if n == 0 then [] else [0] + Zeros(n - 1)
  }

  // Zero-filled up to a multiple of 32.
  function Padded(b: Bytes): (r: Bytes)
    ensures |r| % 32 == 0 && |b| <= |r| < |b| + 32 && r[..|b|] == b
  {
    b + Zeros((32 - |b| % 32) % 32)
  }

  function Encode(t: AbiType, v: AbiValue): Bytes
    requires WellTyped(t, v)
    decreases v, 0
  {
    match t
    case UintT(_) => Word(v.n)
    case IntT(_) => Word(if v.n < 0 then v.n + WordLimit() else v.n)
    case AddressT => Word(FromBigEndian(v.bytes))
    case Bytes32T => v.bytes
    case BoolT => Word(if v.b then 1 else 0)
    case StringT => Word(|v.bytes|) + Padded(v.bytes)
    case BytesT => Word(|v.bytes|) + Padded(v.bytes)
    case ArrayT(of) =>
      RepeatIs(of, |v.items|);
      Word(|v.items|) + EncodeSequence(Repeat(of, |v.items|), v.items)
    case TupleT(fields) => EncodeSequence(fields, v.items)
  }

  // All heads, then all tails; a dynamic head is the offset of its tail from the start of the sequence.
  function EncodeSequence(ts: seq<AbiType>, vs: seq<AbiValue>): Bytes
    requires AllTyped(ts, vs)
    decreases vs, |vs| + 1
  {
    Heads(ts, vs, HeadSize(ts)) + Tails(ts, vs)
  }

  function Heads(ts: seq<AbiType>, vs: seq<AbiValue>, offset: nat): Bytes
    requires AllTyped(ts, vs)
    decreases vs, |vs|
  {
    if ts == [] then []
    else if IsDynamic(ts[0]) then Word(offset) + Heads(ts[1..], vs[1..], offset + |Encode(ts[0], vs[0])|)
    else Encode(ts[0], vs[0]) + Heads(ts[1..], vs[1..], offset)
  }

  function Tails(ts: seq<AbiType>, vs: seq<AbiValue>): Bytes
    requires AllTyped(ts, vs)
    decreases vs, |vs|
  {
    if ts == [] then []
    else (if IsDynamic(ts[0]) then Encode(ts[0], vs[0]) else []) + Tails(ts[1..], vs[1..])
  }

  function EncodeArguments(ts: seq<AbiType>, vs: seq<AbiValue>): Bytes
    requires AllTyped(ts, vs)
  {
    EncodeSequence(ts, vs)
  }

  // ---- Sizes -----------------------------------------------------------------------------------

  lemma {:induction false} StaticWhole(t: AbiType)
    ensures StaticSize(t) % 32 == 0
  {
    if t.TupleT? {
      StaticsWhole(t.fields);
    }
  }

  lemma {:induction false} StaticsWhole(ts: seq<AbiType>)
    ensures StaticSizes(ts) % 32 == 0 && HeadSize(ts) % 32 == 0
  {
    if ts != [] {
      StaticWhole(ts[0]);
      StaticsWhole(ts[1..]);
    }
  }

  lemma {:induction false} HeadsStatic(ts: seq<AbiType>)
    requires forall i :: 0 <= i < |ts| ==> !IsDynamic(ts[i])
    ensures HeadSize(ts) == StaticSizes(ts)
  {
    if ts != [] {
      HeadsStatic(ts[1..]);
    }
  }

  // Every encoding is whole words, and a static one has exactly its declared head size.
  lemma {:induction false} EncodingSize(t: AbiType, v: AbiValue)
    requires WellTyped(t, v)
    ensures |Encode(t, v)| % 32 == 0
    ensures !IsDynamic(t) ==> |Encode(t, v)| == StaticSize(t)
    decreases v, 0
  {
    hide Encode, EncodeSequence, Heads, Tails, HeadSize, Repeat;
    if t.ArrayT? {
      ArrayEncoding(t, v);
      var ts := Repeat(t.of, |v.items|);
      SequenceSize(ts, v.items);
      var body := EncodeSequence(ts, v.items);
      assert |Encode(t, v)| == 32 + |body|;
    } else if t.TupleT? {
      SequenceSize(t.fields, v.items);
      TupleEncoding(t, v);
    } else {
      LeafSize(t, v);
    }
  }

  predicate IsLeaf(t: AbiType) {
    !t.ArrayT? && !t.TupleT?
  }

  lemma LeafSize(t: AbiType, v: AbiValue)
    requires IsLeaf(t) && WellTyped(t, v)
    ensures |Encode(t, v)| % 32 == 0 && (!IsDynamic(t) ==> |Encode(t, v)| == StaticSize(t))
  {
    hide Word, Padded, EncodeSequence;
  }

  lemma ArrayEncoding(t: AbiType, v: AbiValue)
    requires t.ArrayT? && WellTyped(t, v)
    ensures IsDynamic(t) && AllTyped(Repeat(t.of, |v.items|), v.items)
    ensures Encode(t, v) == Word(|v.items|) + EncodeSequence(Repeat(t.of, |v.items|), v.items)
  {
    RepeatIs(t.of, |v.items|);
    hide Word, EncodeSequence, Repeat;
  }

  lemma TupleEncoding(t: AbiType, v: AbiValue)
    requires t.TupleT? && WellTyped(t, v)
    ensures Encode(t, v) == EncodeSequence(t.fields, v.items)
    ensures !IsDynamic(t) ==> HeadSize(t.fields) == StaticSize(t) && forall i :: 0 <= i < |t.fields| ==> !IsDynamic(t.fields[i])
  {
    hide EncodeSequence;
    if !IsDynamic(t) {
      HeadsStatic(t.fields);
    }
  }

  lemma {:induction false} SequenceSize(ts: seq<AbiType>, vs: seq<AbiValue>)
    requires AllTyped(ts, vs)
    ensures |EncodeSequence(ts, vs)| == HeadSize(ts) + |Tails(ts, vs)|
    ensures |EncodeSequence(ts, vs)| % 32 == 0
    ensures (forall i :: 0 <= i < |ts| ==> !IsDynamic(ts[i])) ==> Tails(ts, vs) == []
    decreases vs, |vs| + 1
  {
    hide Heads, Tails, HeadSize;
    StaticsWhole(ts);
    HeadsLength(ts, vs, HeadSize(ts));
    TailsWhole(ts, vs);
  }

  lemma {:induction false} HeadsLength(ts: seq<AbiType>, vs: seq<AbiValue>, offset: nat)
    requires AllTyped(ts, vs)
    ensures |Heads(ts, vs, offset)| == HeadSize(ts)
    decreases vs, |vs|
  {
    if ts != [] {
      EncodingSize(ts[0], vs[0]);
      HeadsLength(ts[1..], vs[1..], if IsDynamic(ts[0]) then offset + |Encode(ts[0], vs[0])| else offset);
    }
  }

  lemma {:induction false} TailsWhole(ts: seq<AbiType>, vs: seq<AbiValue>)
    requires AllTyped(ts, vs)
    ensures |Tails(ts, vs)| % 32 == 0
    ensures (forall i :: 0 <= i < |ts| ==> !IsDynamic(ts[i])) ==> Tails(ts, vs) == []
    decreases vs, |vs|
  {
    hide Encode, WellTyped, IsDynamic;
    if ts != [] {
      EncodingSize(ts[0], vs[0]);
      TailsWhole(ts[1..], vs[1..]);
    }
  }

  // ---- The decoder -----------------------------------------------------------------------------

  function TypeSize(t: AbiType): nat {
    match t
    case ArrayT(of) => 1 + TypeSize(of)
    case TupleT(fields) => 1 + LargestOf(fields)
    case _ => 0
  }

  function LargestOf(ts: seq<AbiType>): nat {
    if ts == [] then 0 else Max(TypeSize(ts[0]), LargestOf(ts[1..]))
  }

  lemma {:induction false} LargestOfRepeat(t: AbiType, n: nat)
    ensures LargestOf(Repeat(t, n)) <= TypeSize(t)
  {
    if n > 0 {
      LargestOfRepeat(t, n - 1);
      assert Repeat(t, n)[1..] == Repeat(t, n - 1);
    }
  }

  function WordAt(b: Bytes, p: nat): Option<nat> {
    if p + 32 > |b| then None else Some(FromBigEndian(b[p..p + 32]))
  }

  // The value whose encoding starts the buffer; whatever follows it is not looked at.
  function Decode(t: AbiType, b: Bytes): Option<AbiValue>
    decreases TypeSize(t), 0
  {
    match WordAt(b, 0)
    case None => if t.TupleT? then DecodeTuple(t, b) else None
    case Some(w) =>
      match t
      case UintT(bits) => if w < Pow2(bits) then Some(Num(w)) else None
      case IntT(bits) => DecodeInt(bits, w)
      case AddressT => if w < Base(20) then Some(Octets(BigEndian(w, 20))) else None
      case Bytes32T => Some(Octets(b[..32]))
      case BoolT => if w == 0 then Some(Flag(false)) else if w == 1 then Some(Flag(true)) else None
      case StringT => DecodeBytes(w, b)
      case BytesT => DecodeBytes(w, b)
      case ArrayT(of) =>
        LargestOfRepeat(of, w);
        AsItems(DecodeSequence(Repeat(of, w), b[32..], 0))
      case TupleT(_) => DecodeTuple(t, b)
  }

  function DecodeTuple(t: AbiType, b: Bytes): Option<AbiValue>
    requires t.TupleT?
    decreases LargestOf(t.fields), |t.fields| + 2
  {
    AsItems(DecodeSequence(t.fields, b, 0))
  }

  function AsItems(vs: Option<seq<AbiValue>>): Option<AbiValue> {
    if vs.Some? then Some(Items(vs.value)) else None
  }

  function DecodeInt(bits: nat, w: nat): Option<AbiValue> {
    var n := if 2 * w >= WordLimit() then w - WordLimit() else w;
    if bits >= 1 && 0 <= n + Pow2(bits - 1) && n < Pow2(bits - 1) then Some(Num(n)) else None
  }

  function DecodeBytes(length: nat, b: Bytes): Option<AbiValue> {
    if 32 + length > |b| then None else Some(Octets(b[32..32 + length]))
  }

  // `p` walks the heads; a dynamic head is an offset into the same buffer.
  function DecodeSequence(ts: seq<AbiType>, b: Bytes, p: nat): Option<seq<AbiValue>>
    decreases LargestOf(ts), |ts| + 1
  {
    if ts == [] then Some([])
    else if p > |b| then None
    else if IsDynamic(ts[0]) then
      match WordAt(b, p)
      case None => None
      case Some(offset) => if offset > |b| then None else Prepend(Decode(ts[0], b[offset..]), DecodeSequence(ts[1..], b, p + 32))
    else Prepend(Decode(ts[0], b[p..]), DecodeSequence(ts[1..], b, p + StaticSize(ts[0])))
  }

  function Prepend(v: Option<AbiValue>, vs: Option<seq<AbiValue>>): Option<seq<AbiValue>> {
    if v.Some? && vs.Some? then Some([v.value] + vs.value) else None
  }

  function DecodeArguments(ts: seq<AbiType>, b: Bytes): Option<seq<AbiValue>> {
    DecodeSequence(ts, b, 0)
  }

  // ---- Recovery --------------------------------------------------------------------------------

  // `part` lies in `b` at `p`.
  predicate LiesAt(b: Bytes, p: nat, part: Bytes) {
    p + |part| <= |b| && b[p..p + |part|] == part
  }

  lemma LiesSplit(b: Bytes, p: nat, x: Bytes, y: Bytes)
    requires LiesAt(b, p, x + y)
    ensures LiesAt(b, p, x) && LiesAt(b, p + |x|, y)
  {
    assert b[p..p + |x + y|][..|x|] == (x + y)[..|x|] == x;
    assert b[p..p + |x + y|][|x|..] == (x + y)[|x|..] == y;
  }

  lemma LiesShift(b: Bytes, k: nat, p: nat, part: Bytes)
    requires k <= |b| && LiesAt(b, k + p, part)
    ensures LiesAt(b[k..], p, part)
  {
    assert b[k..][p..p + |part|] == b[k + p..k + p + |part|];
  }

  lemma WordReads(b: Bytes, p: nat, n: nat)
    requires n < WordLimit() && LiesAt(b, p, Word(n))
    ensures WordAt(b, p) == Some(n)
  {
    BigEndianInverse(n, 32);
  }

  lemma {:induction false} Pow2OfBytes(k: nat)
    ensures Pow2(8 * k) == Base(k)
  {
    if k > 0 {
      Pow2OfBytes(k - 1);
      var n := 8 * (k - 1);
      assert Pow2(n + 8) == 2 * Pow2(n + 7) == 4 * Pow2(n + 6) == 8 * Pow2(n + 5) == 16 * Pow2(n + 4);
      assert Pow2(n + 4) == 2 * Pow2(n + 3) == 4 * Pow2(n + 2) == 8 * Pow2(n + 1) == 16 * Pow2(n);
    }
  }

  lemma {:induction false} Pow2Grows(a: nat, b: nat)
    requires a <= b
    ensures Pow2(a) <= Pow2(b)
    decreases b
  {
    if a < b {
      Pow2Grows(a, b - 1);
    }
  }

  lemma {:induction false} BaseGrows(a: nat, b: nat)
    requires a <= b
    ensures Base(a) <= Base(b)
    decreases b
  {
    if a < b {
      BaseGrows(a, b - 1);
    }
  }

  // No type is wider than a word.
  lemma WordHolds(bits: nat)
    requires bits <= 256
    ensures Pow2(bits) <= WordLimit() && (bits >= 1 ==> 2 * Pow2(bits - 1) <= WordLimit())
  {
    Pow2OfBytes(32);
    Pow2Grows(bits, 256);
  }

  lemma LeafDecodes(t: AbiType, v: AbiValue, b: Bytes)
    requires IsLeaf(t) && WellTyped(t, v) && LiesAt(b, 0, Encode(t, v)) && |b| < WordLimit()
    ensures Decode(t, b) == Some(v)
  {
    if t.StringT? || t.BytesT? {
      OctetsDecode(t, v, b);
    } else if t.Bytes32T? {
      assert b[..32] == b[0..32] == v.bytes;
    } else if t.AddressT? {
      AddressDecodes(v.bytes, b);
    } else {
      NumberDecodes(t, v, b);
    }
  }

  lemma AddressDecodes(a: Bytes, b: Bytes)
    requires |a| == 20 && LiesAt(b, 0, Word(FromBigEndian(a)))
    ensures Decode(AddressT, b) == Some(Octets(a))
  {
    FromBigEndianInverse(a);
    BaseGrows(20, 32);
    WordReads(b, 0, FromBigEndian(a));
  }

  lemma NumberDecodes(t: AbiType, v: AbiValue, b: Bytes)
    requires t.UintT? || t.IntT? || t.BoolT?
    requires WellTyped(t, v) && LiesAt(b, 0, Encode(t, v))
    ensures Decode(t, b) == Some(v)
  {
    hide Word, LiesAt, WordAt, WordLimit, Pow2;
    if t.BoolT? {
      OneFits();
      WordReads(b, 0, if v.b then 1 else 0);
    } else if t.UintT? {
      WordHolds(t.bits);
      WordReads(b, 0, v.n);
    } else {
      WordHolds(t.bits);
      WordReads(b, 0, if v.n < 0 then v.n + WordLimit() else v.n);
    }
  }

  lemma OneFits()
    ensures 1 < WordLimit()
  {
    BaseGrows(1, 32);
    assert Base(1) == 256;
  }

  lemma OctetsDecode(t: AbiType, v: AbiValue, b: Bytes)
    requires (t.StringT? || t.BytesT?) && v.Octets? && LiesAt(b, 0, Word(|v.bytes|) + Padded(v.bytes)) && |b| < WordLimit()
    ensures Decode(t, b) == Some(v)
  {
    LiesSplit(b, 0, Word(|v.bytes|), Padded(v.bytes));
    WordReads(b, 0, |v.bytes|);
    assert b[32..32 + |v.bytes|] == b[32..32 + |Padded(v.bytes)|][..|v.bytes|];
  }

  lemma {:induction false} ZerosAre(n: nat)
    ensures forall i :: 0 <= i < n ==> Zeros(n)[i] == 0
  {
    if n > 0 {
      ZerosAre(n - 1);
    }
  }

  // A text or a byte string is its length in one word, its bytes, and zeros up to the next whole word.
  lemma OctetsAre(t: AbiType, v: AbiValue)
    requires (t.StringT? || t.BytesT?) && WellTyped(t, v) && |v.bytes| < WordLimit()
    ensures var e := Encode(t, v);
            && |e| % 32 == 0 && 32 + |v.bytes| <= |e| < 64 + |v.bytes|
            && FromBigEndian(e[..32]) == |v.bytes| && e[32..32 + |v.bytes|] == v.bytes
            && forall i :: 32 + |v.bytes| <= i < |e| ==> e[i] == 0
  {
    hide Word, WordLimit, EncodeSequence, Zeros, BigEndian, FromBigEndian, Base;
    var head, fill := Word(|v.bytes|), Zeros((32 - |v.bytes| % 32) % 32);
    var e := Encode(t, v);
    ZerosAre(|fill|);
    assert e == head + Padded(v.bytes) && Padded(v.bytes) == v.bytes + fill;
    ThreeParts(head, v.bytes, fill);
    assert LiesAt(e, 0, head);
    WordReads(e, 0, |v.bytes|);
    assert e[0..32] == e[..32];
  }

  lemma ThreeParts(head: Bytes, text: Bytes, fill: Bytes)
    requires |head| == 32
    ensures var e := head + (text + fill);
            && e[..32] == head && e[32..32 + |text|] == text
            && forall i :: 32 + |text| <= i < |e| ==> e[i] == fill[i - 32 - |text|]
  {
  }

  // A decoder recovers every well-typed value from its encoding, whatever follows it.
  lemma {:induction false} Decodes(t: AbiType, v: AbiValue, b: Bytes)
    requires WellTyped(t, v) && LiesAt(b, 0, Encode(t, v)) && |b| < WordLimit()
    ensures Decode(t, b) == Some(v)
    decreases v, 0
  {
    hide Encode, EncodeSequence, Heads, Tails, Repeat, DecodeSequence, LiesAt;
    if t.ArrayT? {
      ArrayEncoding(t, v);
      var ts := Repeat(t.of, |v.items|);
      LiesSplit(b, 0, Word(|v.items|), EncodeSequence(ts, v.items));
      WordReads(b, 0, |v.items|);
      LiesShift(b, 32, 0, EncodeSequence(ts, v.items));
      SequenceDecodes(ts, v.items, b[32..]);
    } else if t.TupleT? {
      TupleEncoding(t, v);
      SequenceDecodes(t.fields, v.items, b);
    } else {
      LeafDecodes(t, v, b);
    }
  }

  lemma {:induction false} SequenceDecodes(ts: seq<AbiType>, vs: seq<AbiValue>, b: Bytes)
    requires AllTyped(ts, vs) && LiesAt(b, 0, EncodeSequence(ts, vs)) && |b| < WordLimit()
    ensures DecodeSequence(ts, b, 0) == Some(vs)
    decreases vs, |vs| + 1
  {
    HeadsLength(ts, vs, HeadSize(ts));
    LiesSplit(b, 0, Heads(ts, vs, HeadSize(ts)), Tails(ts, vs));
    HeadsDecode(ts, vs, b, 0, HeadSize(ts));
  }

  lemma DynamicStep(ts: seq<AbiType>, vs: seq<AbiValue>, b: Bytes, p: nat, offset: nat)
    requires ts != [] && IsDynamic(ts[0]) && p <= |b| && offset <= |b| && WordAt(b, p) == Some(offset)
    requires vs != [] && Decode(ts[0], b[offset..]) == Some(vs[0]) && DecodeSequence(ts[1..], b, p + 32) == Some(vs[1..])
    ensures DecodeSequence(ts, b, p) == Some(vs)
  {
    hide Decode, IsDynamic, WordAt;
    assert vs == [vs[0]] + vs[1..];
  }

  lemma StaticStep(ts: seq<AbiType>, vs: seq<AbiValue>, b: Bytes, p: nat)
    requires ts != [] && !IsDynamic(ts[0]) && p <= |b|
    requires vs != [] && Decode(ts[0], b[p..]) == Some(vs[0])
    requires DecodeSequence(ts[1..], b, p + StaticSize(ts[0])) == Some(vs[1..])
    ensures DecodeSequence(ts, b, p) == Some(vs)
  {
    hide Decode, IsDynamic, StaticSize;
    assert vs == [vs[0]] + vs[1..];
  }

  lemma DynamicLayout(ts: seq<AbiType>, vs: seq<AbiValue>, offset: nat)
    requires AllTyped(ts, vs) && ts != [] && IsDynamic(ts[0])
    ensures WellTyped(ts[0], vs[0]) && AllTyped(ts[1..], vs[1..])
    ensures Heads(ts, vs, offset) == Word(offset) + Heads(ts[1..], vs[1..], offset + |Encode(ts[0], vs[0])|)
    ensures Tails(ts, vs) == Encode(ts[0], vs[0]) + Tails(ts[1..], vs[1..])
  {
    hide Encode, IsDynamic, Word, WellTyped;
  }

  lemma StaticLayout(ts: seq<AbiType>, vs: seq<AbiValue>, offset: nat)
    requires AllTyped(ts, vs) && ts != [] && !IsDynamic(ts[0])
    ensures WellTyped(ts[0], vs[0]) && AllTyped(ts[1..], vs[1..])
    ensures Heads(ts, vs, offset) == Encode(ts[0], vs[0]) + Heads(ts[1..], vs[1..], offset)
    ensures Tails(ts, vs) == Tails(ts[1..], vs[1..])
  {
    hide Encode, IsDynamic, Word, WellTyped;
    assert [] + Tails(ts[1..], vs[1..]) == Tails(ts[1..], vs[1..]);
  }

  // Heads from `p` on and their tails from `offset` on decode to the values they were made from.
  lemma {:induction false} HeadsDecode(ts: seq<AbiType>, vs: seq<AbiValue>, b: Bytes, p: nat, offset: nat)
    requires AllTyped(ts, vs) && |b| < WordLimit()
    requires LiesAt(b, p, Heads(ts, vs, offset)) && LiesAt(b, offset, Tails(ts, vs))
    ensures DecodeSequence(ts, b, p) == Some(vs)
    decreases vs, |vs|, 1
  {
    hide Encode, Heads, Tails, LiesAt, WordLimit, WellTyped, IsDynamic;
    if ts != [] {
      if IsDynamic(ts[0]) {
        DynamicHead(ts, vs, b, p, offset);
      } else {
        StaticHead(ts, vs, b, p, offset);
      }
    }
  }

  lemma {:induction false} DynamicHead(ts: seq<AbiType>, vs: seq<AbiValue>, b: Bytes, p: nat, offset: nat)
    requires ts != [] && IsDynamic(ts[0])
    requires AllTyped(ts, vs) && |b| < WordLimit()
    requires LiesAt(b, p, Heads(ts, vs, offset)) && LiesAt(b, offset, Tails(ts, vs))
    ensures DecodeSequence(ts, b, p) == Some(vs)
    decreases vs, |vs|, 0
  {
    var next := DynamicParts(ts, vs, b, p, offset);
    hide Encode, Decode, DecodeSequence, Heads, Tails, LiesAt, WordAt, WordLimit, WellTyped, AllTyped, IsDynamic;
    Decodes(ts[0], vs[0], b[offset..]);
    HeadsDecode(ts[1..], vs[1..], b, p + 32, next);
    DynamicStep(ts, vs, b, p, offset);
  }

  lemma DynamicParts(ts: seq<AbiType>, vs: seq<AbiValue>, b: Bytes, p: nat, offset: nat) returns (next: nat)
    requires ts != [] && IsDynamic(ts[0])
    requires AllTyped(ts, vs) && |b| < WordLimit()
    requires LiesAt(b, p, Heads(ts, vs, offset)) && LiesAt(b, offset, Tails(ts, vs))
    ensures vs != [] && WellTyped(ts[0], vs[0]) && AllTyped(ts[1..], vs[1..])
    ensures p + 32 <= |b| && offset <= |b| && WordAt(b, p) == Some(offset)
    ensures LiesAt(b[offset..], 0, Encode(ts[0], vs[0])) && |b[offset..]| < WordLimit()
    ensures LiesAt(b, p + 32, Heads(ts[1..], vs[1..], next)) && LiesAt(b, next, Tails(ts[1..], vs[1..]))
  {
    DynamicLayout(ts, vs, offset);
    hide Encode, Heads, Tails, LiesAt, WordAt, Word, WordLimit, WellTyped;
    var enc := Encode(ts[0], vs[0]);
    next := offset + |enc|;
    DynamicLies(b, p, offset, enc, Heads(ts[1..], vs[1..], next), Tails(ts[1..], vs[1..]));
  }

  lemma {:induction false} StaticHead(ts: seq<AbiType>, vs: seq<AbiValue>, b: Bytes, p: nat, offset: nat)
    requires ts != [] && !IsDynamic(ts[0])
    requires AllTyped(ts, vs) && |b| < WordLimit()
    requires LiesAt(b, p, Heads(ts, vs, offset)) && LiesAt(b, offset, Tails(ts, vs))
    ensures DecodeSequence(ts, b, p) == Some(vs)
    decreases vs, |vs|, 0
  {
    StaticLayout(ts, vs, offset);
    hide Encode, Decode, DecodeSequence, Heads, Tails, LiesAt, WordAt, Word, WordLimit, WellTyped, AllTyped, StaticSize, IsDynamic;
    var enc := Encode(ts[0], vs[0]);
    EncodingSize(ts[0], vs[0]);
    StaticLies(b, p, enc, Heads(ts[1..], vs[1..], offset));
    Decodes(ts[0], vs[0], b[p..]);
    HeadsDecode(ts[1..], vs[1..], b, p + StaticSize(ts[0]), offset);
    StaticStep(ts, vs, b, p);
  }

  lemma DynamicLies(b: Bytes, p: nat, offset: nat, enc: Bytes, heads: Bytes, tails: Bytes)
    requires |b| < WordLimit() && LiesAt(b, p, Word(offset) + heads) && LiesAt(b, offset, enc + tails)
    ensures p + 32 <= |b| && offset <= |b| && WordAt(b, p) == Some(offset) && LiesAt(b[offset..], 0, enc)
    ensures LiesAt(b, p + 32, heads) && LiesAt(b, offset + |enc|, tails)
  {
    hide WordLimit, Word;
    LiesSplit(b, p, Word(offset), heads);
    LiesSplit(b, offset, enc, tails);
    WordReads(b, p, offset);
    LiesShift(b, offset, 0, enc);
  }

  lemma StaticLies(b: Bytes, p: nat, enc: Bytes, heads: Bytes)
    requires LiesAt(b, p, enc + heads)
    ensures p <= |b| && LiesAt(b[p..], 0, enc) && LiesAt(b, p + |enc|, heads)
  {
    LiesSplit(b, p, enc, heads);
    LiesShift(b, p, 0, enc);
  }

  // ---- Consequences ----------------------------------------------------------------------------

  lemma ArgumentsDecode(ts: seq<AbiType>, vs: seq<AbiValue>, rest: Bytes)
    requires AllTyped(ts, vs) && |EncodeArguments(ts, vs) + rest| < WordLimit()
    ensures DecodeArguments(ts, EncodeArguments(ts, vs) + rest) == Some(vs)
  {
    var enc := EncodeArguments(ts, vs);
    assert (enc + rest)[0..|enc|] == enc;
    hide Encode, EncodeSequence, DecodeSequence;
    SequenceDecodes(ts, vs, enc + rest);
  }

  // Two argument lists of one type never share calldata.
  lemma EncodingInjective(ts: seq<AbiType>, xs: seq<AbiValue>, ys: seq<AbiValue>)
    requires AllTyped(ts, xs) && AllTyped(ts, ys) && |EncodeArguments(ts, xs)| < WordLimit()
    requires EncodeArguments(ts, xs) == EncodeArguments(ts, ys)
    ensures xs == ys
  {
    hide EncodeArguments, DecodeArguments;
    ArgumentsDecode(ts, xs, []);
    ArgumentsDecode(ts, ys, []);
    assert EncodeArguments(ts, xs) + [] == EncodeArguments(ts, xs);
  }

  // ---- The adapter's string reader -------------------------------------------------------------

  const MAX_SAFE_INTEGER: nat := 0x1f_ffff_ffff_ffff

  // The bytes of the text a response decodes to; `utf8` says which byte strings are text.
  function AbiString(utf8: Bytes -> bool, b: Bytes): Option<Bytes> {
    if |b| < 64 || |b| % 32 != 0 then None
    else
      var offset := FromBigEndian(b[..32]);
      if offset > MAX_SAFE_INTEGER || offset + 32 > |b| then None
      else
        var length := FromBigEndian(b[offset..offset + 32]);
        if length > 128 || offset + 32 + length > |b| then None
        else
          var raw := b[offset + 32..offset + 32 + length];
          if utf8(raw) then Some(Unmarked(raw)) else None
  }

  lemma OneString(s: Bytes)
    ensures AllTyped([StringT], [Octets(s)])
    ensures EncodeArguments([StringT], [Octets(s)]) == Word(32) + Word(|s|) + Padded(s)
  {
    var ts, vs := [StringT], [Octets(s)];
    assert ts[1..] == [] && vs[1..] == [];
    assert HeadSize(ts) == 32 + HeadSize([]) == 32;
    var enc := Encode(StringT, Octets(s));
    assert Heads(ts, vs, 32) == Word(32) + Heads([], [], 32 + |enc|) == Word(32);
    assert Tails(ts, vs) == enc + Tails([], []) == enc;
    assert Word(32) + (Word(|s|) + Padded(s)) == Word(32) + Word(|s|) + Padded(s);
  }

  // It recovers an encoded string exactly when the string has at most 128 bytes and no leading byte-order mark.
  lemma StringRecovered(utf8: Bytes -> bool, s: Bytes)
    requires utf8(s) && |s| < WordLimit()
    ensures AllTyped([StringT], [Octets(s)])
    ensures var b := EncodeArguments([StringT], [Octets(s)]);
            && AbiString(utf8, b) == (if |s| <= 128 then Some(Unmarked(s)) else None)
            && (AbiString(utf8, b) == Some(s) <==> |s| <= 128 && Marks(s) == 0)
  {
    OneString(s);
    BaseGrows(1, 32);
    assert 32 < WordLimit() by {
      assert Base(1) == 256;
    }
    BigEndianInverse(32, 32);
    BigEndianInverse(|s|, 32);
    ReadsOneString(utf8, Word(32), Word(|s|), Padded(s), s);
    if Marks(s) > 0 {
      assert |Unmarked(s)| == |s| - 3;
    }
  }

  lemma ReadsOneString(utf8: Bytes -> bool, offset: Bytes, length: Bytes, text: Bytes, s: Bytes)
    requires |offset| == 32 && FromBigEndian(offset) == 32 && |length| == 32 && FromBigEndian(length) == |s|
    requires |text| % 32 == 0 && |s| <= |text| && text[..|s|] == s && utf8(s)
    ensures AbiString(utf8, offset + length + text) == (if |s| <= 128 then Some(Unmarked(s)) else None)
  {
    hide FromBigEndian, Unmarked;
    var b := offset + length + text;
    assert b[..32] == offset && b[32..64] == length;
    if |s| <= 128 {
      assert b[64..64 + |s|] == text[..|s|];
    }
  }
}
