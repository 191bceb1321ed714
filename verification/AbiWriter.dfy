// The encoder as it runs: words filled from the low end, heads and tails collected while an offset moves
// (packages/evm-robinhood/src/abi.ts:53-138). A value it cannot encode makes it stop with None, where the source throws.
module AbiWriter {
  import opened Common
  import opened Codec
  import opened Abi

  method WriteWord(value: int) returns (r: Option<Bytes>)
    ensures r == if 0 <= value < WordLimit() then Some(Word(value)) else None
  {
    if value < 0 || value >= WordLimit() {
      return None;
    }
    var out := new Byte[32];
    var v := value;
    var i := 32;
    assert [] == out[32..];
    while i > 0
      invariant 0 <= i <= 32 && v >= 0
      invariant BigEndian(value, 32) == BigEndian(v, i) + out[i..]
    {
      i := i - 1;
      ghost var low := out[i + 1..];
      out[i] := (v % 256) as Byte;
      assert out[i..] == [(v % 256) as Byte] + low;
      v := v / 256;
    }
    assert BigEndian(v, 0) + out[0..] == out[..];
    r := Some(out[..]);
  }

  // What a run of the encoder over one value or one sequence promises.
  ghost predicate Wrote(typed: bool, encoding: Bytes, r: Option<Bytes>) {
    && (r.Some? ==> typed && r.value == encoding)
    && (typed && |encoding| < WordLimit() ==> r.Some?)
  }

  ghost function Encoding(t: AbiType, v: AbiValue): Bytes {
    if WellTyped(t, v) then Encode(t, v) else []
  }

  ghost function SequenceEncoding(ts: seq<AbiType>, vs: seq<AbiValue>): Bytes {
    if AllTyped(ts, vs) then EncodeSequence(ts, vs) else []
  }

  method WriteOctets(b: Bytes) returns (r: Option<Bytes>)
    ensures r == if |b| < WordLimit() then Some(Word(|b|) + Padded(b)) else None
  {
    var length := WriteWord(|b|);
    if length.None? {
      return None;
    }
    r := Some(length.value + Padded(b));
  }

  method WriteLeaf(t: AbiType, v: AbiValue) returns (r: Option<Bytes>)
    requires IsLeaf(t)
    ensures Wrote(WellTyped(t, v), Encoding(t, v), r)
  {
    hide Word, Padded;
    if !WellTyped(t, v) {
      return None;
    }
    match t
    case UintT(bits) =>
      WordHolds(bits);
      r := WriteWord(v.n);
    case IntT(bits) =>
      WordHolds(bits);
      r := WriteWord(if v.n < 0 then v.n + WordLimit() else v.n);
    case AddressT =>
      FromBigEndianInverse(v.bytes);
      BaseGrows(20, 32);
      r := WriteWord(FromBigEndian(v.bytes));
    case Bytes32T =>
      r := Some(v.bytes);
    case BoolT =>
      OneFits();
      r := WriteWord(if v.b then 1 else 0);
    case StringT =>
      r := WriteOctets(v.bytes);
    case BytesT =>
      r := WriteOctets(v.bytes);
  }

  method WriteValue(t: AbiType, v: AbiValue) returns (r: Option<Bytes>)
    ensures Wrote(WellTyped(t, v), Encoding(t, v), r)
    decreases v, 0
  {
    hide Encode, EncodeSequence, Repeat, Word;
    if t.ArrayT? {
      if !v.Items? {
        return None;
      }
      RepeatIs(t.of, |v.items|);
      var count := WriteWord(|v.items|);
      if count.None? {
        return None;
      }
      var body := WriteSequence(Repeat(t.of, |v.items|), v.items);
      if WellTyped(t, v) {
        ArrayEncoding(t, v);
      }
      r := if body.None? then None else Some(count.value + body.value);
    } else if t.TupleT? {
      if !v.Items? || |v.items| != |t.fields| {
        return None;
      }
      r := WriteSequence(t.fields, v.items);
      if WellTyped(t, v) {
        TupleEncoding(t, v);
      }
    } else {
      r := WriteLeaf(t, v);
    }
  }

  // One pass: a dynamic value leaves its offset among the heads and its bytes among the tails.
  method WriteSequence(ts: seq<AbiType>, vs: seq<AbiValue>) returns (r: Option<Bytes>)
    requires |ts| == |vs|
    ensures Wrote(AllTyped(ts, vs), SequenceEncoding(ts, vs), r)
    decreases vs, |vs| + 1
  {
    hide Encode, WellTyped, Word, WordLimit, IsDynamic, Heads, Tails, HeadSize, Collected;
    var heads: Bytes := [];
    var tails: Bytes := [];
    var tailOffset: nat := HeadSize(ts);
    var i := 0;
    if AllTyped(ts, vs) {
      CollectedNothing(ts, vs);
    }
    while i < |ts|
      invariant 0 <= i <= |ts|
      invariant forall k :: 0 <= k < i ==> WellTyped(ts[k], vs[k])
      invariant AllTyped(ts, vs) ==> Collected(ts, vs, i, heads, tails, tailOffset)
    {
      var enc := WriteValue(ts[i], vs[i]);
      if AllTyped(ts, vs) {
        CollectedFits(ts, vs, i, heads, tails, tailOffset);
        CollectStep(ts, vs, i, heads, tails, tailOffset);
      }
      if enc.None? {
        return None;
      }
      if IsDynamic(ts[i]) {
        var offset := WriteWord(tailOffset);
        if offset.None? {
          return None;
        }
        heads := heads + offset.value;
        tails := tails + enc.value;
        tailOffset := tailOffset + |enc.value|;
      } else {
        heads := heads + enc.value;
      }
      i := i + 1;
    }
    CollectedAll(ts, vs, heads, tails, tailOffset);
    r := Some(heads + tails);
  }

  // After `i` values, what is collected plus the layout of the rest is the layout of all.
  ghost predicate Collected(ts: seq<AbiType>, vs: seq<AbiValue>, i: nat, heads: Bytes, tails: Bytes, offset: nat)
    requires AllTyped(ts, vs) && i <= |ts|
  {
    && heads + Heads(ts[i..], vs[i..], offset) == Heads(ts, vs, HeadSize(ts))
    && tails + Tails(ts[i..], vs[i..]) == Tails(ts, vs)
    && offset == HeadSize(ts) + |tails|
  }

  lemma CollectedNothing(ts: seq<AbiType>, vs: seq<AbiValue>)
    requires AllTyped(ts, vs)
    ensures Collected(ts, vs, 0, [], [], HeadSize(ts))
  {
    assert ts[0..] == ts && vs[0..] == vs;
  }

  lemma CollectedAll(ts: seq<AbiType>, vs: seq<AbiValue>, heads: Bytes, tails: Bytes, offset: nat)
    requires AllTyped(ts, vs) && Collected(ts, vs, |ts|, heads, tails, offset)
    ensures heads + tails == EncodeSequence(ts, vs)
  {
    assert ts[|ts|..] == [] && vs[|ts|..] == [];
  }

  lemma CollectedFits(ts: seq<AbiType>, vs: seq<AbiValue>, i: nat, heads: Bytes, tails: Bytes, offset: nat)
    requires AllTyped(ts, vs) && i < |ts| && Collected(ts, vs, i, heads, tails, offset)
    ensures |Encode(ts[i], vs[i])| <= |EncodeSequence(ts, vs)|
    ensures IsDynamic(ts[i]) ==> offset <= |EncodeSequence(ts, vs)|
  {
    hide Encode, WellTyped, IsDynamic;
    SequenceSize(ts, vs);
    if IsDynamic(ts[i]) {
      DynamicLayout(ts[i..], vs[i..], offset);
    } else {
      StaticLayout(ts[i..], vs[i..], offset);
    }
  }

  lemma CollectStep(ts: seq<AbiType>, vs: seq<AbiValue>, i: nat, heads: Bytes, tails: Bytes, offset: nat)
    requires AllTyped(ts, vs) && i < |ts| && Collected(ts, vs, i, heads, tails, offset)
    ensures var enc := Encode(ts[i], vs[i]);
            if IsDynamic(ts[i]) then Collected(ts, vs, i + 1, heads + Word(offset), tails + enc, offset + |enc|)
            else Collected(ts, vs, i + 1, heads + enc, tails, offset)
  {
    hide Encode, WellTyped, IsDynamic, Heads, Tails, HeadSize;
    var enc := Encode(ts[i], vs[i]);
    assert ts[i..][1..] == ts[i + 1..] && vs[i..][1..] == vs[i + 1..];
    if IsDynamic(ts[i]) {
      DynamicLayout(ts[i..], vs[i..], offset);
      var more := Heads(ts[i + 1..], vs[i + 1..], offset + |enc|);
      assert heads + (Word(offset) + more) == heads + Word(offset) + more;
      assert tails + (enc + Tails(ts[i + 1..], vs[i + 1..])) == tails + enc + Tails(ts[i + 1..], vs[i + 1..]);
    } else {
      StaticLayout(ts[i..], vs[i..], offset);
      var more := Heads(ts[i + 1..], vs[i + 1..], offset);
      assert heads + (enc + more) == heads + enc + more;
    }
  }
}
