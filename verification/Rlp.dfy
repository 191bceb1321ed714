// Recursive length prefixes, a strict decoder after Appendix B of the Ethereum Yellow Paper, and the fields of a
// typed transaction (packages/evm-robinhood/src/transaction.ts:30-71).
module Rlp {
  import opened Common
  import opened Codec

  datatype Item = Octets(bytes: Bytes) | Sequence(items: seq<Item>)

  // ---- Minimal big-endian integers -------------------------------------------------------------

  function MinBytes(n: nat): Bytes {
    if n == 0 then [] else MinBytes(n / 256) + [(n % 256) as Byte]
  }

  lemma {:induction false} MinBytesValue(n: nat)
    ensures FromBigEndian(MinBytes(n)) == n
    ensures n > 0 ==> MinBytes(n) != [] && MinBytes(n)[0] != 0
  {
    if n > 0 {
      MinBytesValue(n / 256);
      var b := MinBytes(n);
      assert b[..|b| - 1] == MinBytes(n / 256);
      if n / 256 > 0 {
        assert b[0] == MinBytes(n / 256)[0];
      }
    }
  }

  lemma {:induction false} MinBytesLength(n: nat, k: nat)
    requires n < Base(k)
    ensures |MinBytes(n)| <= k
  {
    if n > 0 {
      MinBytesLength(n / 256, k - 1);
    }
  }

  // The only byte string without a leading zero that reads as its value.
  lemma {:induction false} MinBytesUnique(b: Bytes)
    requires b != [] ==> b[0] != 0
    ensures MinBytes(FromBigEndian(b)) == b
    ensures b != [] ==> FromBigEndian(b) > 0
  {
    if b != [] {
      var front := b[..|b| - 1];
      MinBytesUnique(front);
      var n := FromBigEndian(b);
      assert n / 256 == FromBigEndian(front) && n % 256 == b[|b| - 1] as int;
      assert b == front + [b[|b| - 1]];
    }
  }

  // ---- Quantities, through their hexadecimal text ----------------------------------------------

  type Nibble = d: int | 0 <= d < 16

  // Hexadecimal digits.
  function Hex(n: nat): seq<Nibble> {
    if n < 16 then [n] else Hex(n / 16) + [n % 16]
  }

  // With a leading zero digit where the count is odd.
  function EvenHex(n: nat): seq<Nibble> {
    if |Hex(n)| % 2 == 0 then Hex(n) else [0] + Hex(n)
  }

  function ByteOf(high: int, low: int): Byte
    requires 0 <= high < 16 && 0 <= low < 16
  {
    16 * high + low
  }

  function HexBytes(digits: seq<Nibble>): Bytes {
    if |digits| < 2 then [] else [ByteOf(digits[0], digits[1])] + HexBytes(digits[2..])
  }

  function QuantityBytes(n: nat): Bytes {
    if n == 0 then [] else HexBytes(EvenHex(n))
  }

  lemma {:induction false} HexBytesAppend(ds: seq<Nibble>, a: Nibble, b: Nibble)
    requires |ds| % 2 == 0
    ensures HexBytes(ds + [a, b]) == HexBytes(ds) + [ByteOf(a, b)]
    decreases |ds|
  {
    if ds == [] {
      assert ds + [a, b] == [a, b];
      assert [a, b][2..] == [];
    } else {
      HexBytesAppend(ds[2..], a, b);
      assert (ds + [a, b])[2..] == ds[2..] + [a, b];
    }
  }

  lemma EvenHexStep(n: nat)
    requires n >= 256
    ensures EvenHex(n) == EvenHex(n / 256) + [n / 16 % 16, n % 16] && |EvenHex(n / 256)| % 2 == 0
  {
    assert n / 16 / 16 == n / 256;
    var ds := Hex(n / 256);
    assert Hex(n / 16) == ds + [n / 16 % 16];
    assert Hex(n) == ds + [n / 16 % 16] + [n % 16] == ds + [n / 16 % 16, n % 16];
    assert [0] + (ds + [n / 16 % 16, n % 16]) == [0] + ds + [n / 16 % 16, n % 16];
  }

  lemma TwoDigits(a: Nibble, b: Nibble)
    ensures HexBytes([a, b]) == [ByteOf(a, b)]
  {
    HexBytesAppend([], a, b);
    assert [] + [a, b] == [a, b];
  }

  lemma HexOfByte(n: nat)
    requires n < 256
    ensures EvenHex(n) == [n / 16, n % 16]
  {
    if n >= 16 {
      assert Hex(n / 16) == [n / 16];
    }
  }

  lemma OneByte(n: nat)
    requires 0 < n < 256
    ensures QuantityBytes(n) == [n] && MinBytes(n) == [n]
  {
    HexOfByte(n);
    TwoDigits(n / 16, n % 16);
    hide HexBytes, EvenHex, Hex;
    assert MinBytes(n / 256) == [];
  }

  lemma LowByte(n: nat)
    ensures ByteOf(n / 16 % 16, n % 16) == n % 256
  {
  }

  // The unique minimal big-endian form; zero is the empty string.
  lemma {:induction false} QuantityIsMinimal(n: nat)
    ensures QuantityBytes(n) == MinBytes(n)
  {
    if n >= 256 {
      QuantityIsMinimal(n / 256);
      EvenHexStep(n);
      HexBytesAppend(EvenHex(n / 256), n / 16 % 16, n % 16);
      LowByte(n);
      hide HexBytes, EvenHex;
    } else if n > 0 {
      OneByte(n);
    }
  }

  // A length has at most eight bytes.
  function LengthLimit(): nat {
    Base(8)
  }

  // ---- Encoding --------------------------------------------------------------------------------

  // 0x80 for byte strings, 0xc0 for sequences; a stored byte keeps its low eight bits.
  function LengthPrefix(length: nat, offset: nat): Bytes {
    if length < 56 then [Low(offset + length)] else [Low(offset + 55 + |MinBytes(length)|)] + MinBytes(length)
  }

  function Low(n: nat): Byte {
    n % 256
  }

  lemma LowIs(n: nat)
    requires n < 256
    ensures Low(n) == n
  {
  }

  method BuildLengthPrefix(length: nat, offset: nat) returns (r: Bytes)
    ensures r == LengthPrefix(length, offset)
  {
    if length < 56 {
      return [Low(offset + length)];
    }
    var bytes: Bytes := [];
    var n := length;
    while n > 0
      invariant MinBytes(length) == MinBytes(n) + bytes
    {
      var low, high: nat := n % 256, n / 256;
      assert MinBytes(n) + bytes == MinBytes(high) + ([low] + bytes);
      bytes := [low] + bytes;
      n := high;
    }
    r := [Low(offset + 55 + |bytes|)] + bytes;
  }

  // A single small byte stands for itself.
  predicate OwnEncoding(bytes: Bytes) {
    |bytes| == 1 && bytes[0] < 0x80
  }

  function Encode(item: Item): Bytes {
    match item
    case Octets(bytes) => if OwnEncoding(bytes) then bytes else LengthPrefix(|bytes|, 0x80) + bytes
    case Sequence(items) => LengthPrefix(|EncodeAll(items)|, 0xc0) + EncodeAll(items)
  }

  function EncodeAll(items: seq<Item>): Bytes {
    if items == [] then [] else Encode(items[0]) + EncodeAll(items[1..])
  }

  // ---- The strict decoder ----------------------------------------------------------------------

  datatype Header = Header(size: nat, payload: nat)

  // The header of a string (0x80) or a sequence (0xc0); a length that has a shorter form is refused.
  function ReadHeader(b: Bytes, offset: nat): Option<Header> {
    if b == [] || b[0] as int < offset || b[0] as int > offset + 63 then None
    else if b[0] as int <= offset + 55 then Some(Header(1, b[0] as int - offset))
    else
      var width := b[0] as int - offset - 55;
      if 1 + width > |b| || b[1] == 0 then None
      else
        var length := FromBigEndian(b[1..1 + width]);
        if length < 56 then None else Some(Header(1 + width, length))
  }

  datatype Parsed<T> = Parsed(value: T, used: nat)

  // The bytes a header announces.
  function ReadPayload(b: Bytes, offset: nat): (r: Option<Parsed<Bytes>>)
    ensures r.Some? ==> 1 <= r.value.used <= |b| && |r.value.value| < r.value.used
  {
    match ReadHeader(b, offset)
    case None => None
    case Some(h) =>
      var end := h.size + h.payload;
      if end > |b| then None else Some(Parsed(b[h.size..end], end))
  }

  function Decode(b: Bytes): (r: Option<Parsed<Item>>)
    ensures r.Some? ==> 1 <= r.value.used <= |b|
    decreases |b|, 0
  {
    if b == [] then None
    else if b[0] < 0x80 then Some(Parsed(Octets([b[0]]), 1))
    else if b[0] < 0xc0 then
      match ReadPayload(b, 0x80)
      case None => None
      case Some(p) => if OwnEncoding(p.value) then None else Some(Parsed(Octets(p.value), p.used))
    else
      match ReadPayload(b, 0xc0)
      case None => None
      case Some(p) =>
        match DecodeAll(p.value)
        case None => None
        case Some(items) => Some(Parsed(Sequence(items), p.used))
  }

  function DecodeAll(b: Bytes): Option<seq<Item>>
    decreases |b|, 1
  {
    if b == [] then Some([])
    else match Decode(b)
      case None => None
      case Some(first) =>
        match DecodeAll(b[first.used..])
        case None => None
        case Some(more) => Some([first.value] + more)
  }

  // ---- Headers round-trip ----------------------------------------------------------------------

  lemma HeaderReads(length: nat, offset: nat, rest: Bytes)
    requires (offset == 0x80 || offset == 0xc0) && length < LengthLimit()
    ensures var p := LengthPrefix(length, offset);
            p != [] && offset <= p[0] as int <= offset + 63 && ReadHeader(p + rest, offset) == Some(Header(|p|, length))
  {
    if length >= 56 {
      var bytes := MinBytes(length);
      MinBytesLength(length, 8);
      MinBytesValue(length);
      hide MinBytes, FromBigEndian, ReadHeader, LengthLimit, Low;
      var first: nat := offset + 55 + |bytes|;
      LowIs(first);
      LongHeaderReads(first, bytes, offset, rest);
    } else {
      hide LengthLimit, Low, FromBigEndian;
      LowIs(offset + length);
    }
  }

  lemma LongHeaderReads(first: Byte, bytes: Bytes, offset: nat, rest: Bytes)
    requires (offset == 0x80 || offset == 0xc0) && 1 <= |bytes| <= 8 && bytes[0] != 0 && FromBigEndian(bytes) >= 56
    requires first as int == offset + 55 + |bytes|
    ensures ReadHeader([first] + bytes + rest, offset) == Some(Header(1 + |bytes|, FromBigEndian(bytes)))
  {
    hide FromBigEndian;
    var b := [first] + bytes + rest;
    var end := 1 + |bytes|;
    assert b[1..end] == bytes && b[1] == bytes[0] && b[0] == first;
  }

  lemma HeaderWrites(b: Bytes, offset: nat)
    requires (offset == 0x80 || offset == 0xc0) && ReadHeader(b, offset).Some?
    ensures var h := ReadHeader(b, offset).value;
            1 <= h.size <= |b| && b[..h.size] == LengthPrefix(h.payload, offset)
  {
    hide FromBigEndian, MinBytes, Low;
    var h := ReadHeader(b, offset).value;
    LowIs(b[0] as int);
    if h.size > 1 {
      MinBytesUnique(b[1..h.size]);
      assert b[..h.size] == [b[0]] + b[1..h.size];
    } else {
      assert b[..1] == [b[0]];
    }
  }

  lemma PayloadReads(bytes: Bytes, offset: nat, rest: Bytes)
    requires (offset == 0x80 || offset == 0xc0) && |bytes| < LengthLimit()
    ensures var p := LengthPrefix(|bytes|, offset);
            && p != [] && offset <= p[0] as int <= offset + 63
            && ReadPayload(p + bytes + rest, offset) == Some(Parsed(bytes, |p + bytes|))
  {
    HeaderReads(|bytes|, offset, bytes + rest);
    hide LengthPrefix, ReadHeader, LengthLimit;
    var p := LengthPrefix(|bytes|, offset);
    var b := p + bytes + rest;
    assert b == p + (bytes + rest);
    var end := |p| + |bytes|;
    assert b[|p|..end] == bytes;
  }

  lemma PayloadWrites(b: Bytes, offset: nat)
    requires (offset == 0x80 || offset == 0xc0) && ReadPayload(b, offset).Some?
    ensures var p := ReadPayload(b, offset).value; b[..p.used] == LengthPrefix(|p.value|, offset) + p.value
  {
    HeaderWrites(b, offset);
    hide LengthPrefix, ReadHeader;
    var h := ReadHeader(b, offset).value;
    var end := h.size + h.payload;
    assert b[..end] == b[..h.size] + b[h.size..end];
  }

  // ---- Self-delimiting and injective -----------------------------------------------------------

  // A sequence is its header and a body that decodes.
  lemma WrapsBody(items: seq<Item>, rest: Bytes)
    requires |Encode(Sequence(items))| < LengthLimit() && DecodeAll(EncodeAll(items)) == Some(items)
    ensures Decode(Encode(Sequence(items)) + rest) == Some(Parsed(Sequence(items), |Encode(Sequence(items))|))
  {
    var body := EncodeAll(items);
    PayloadReads(body, 0xc0, rest);
    hide LengthPrefix, ReadPayload, EncodeAll, DecodeAll, LengthLimit;
    var prefix := LengthPrefix(|body|, 0xc0);
    assert (prefix + body + rest)[0] == prefix[0];
  }

  lemma {:induction false} DecodesSequence(items: seq<Item>, rest: Bytes)
    requires |Encode(Sequence(items))| < LengthLimit()
    ensures Decode(Encode(Sequence(items)) + rest) == Some(Parsed(Sequence(items), |Encode(Sequence(items))|))
    decreases items, |items| + 1
  {
    hide Decode, DecodeAll, EncodeAll, LengthLimit, LengthPrefix;
    DecodesAll(items);
    WrapsBody(items, rest);
  }

  lemma {:induction false} DecodesAll(items: seq<Item>)
    requires |EncodeAll(items)| < LengthLimit()
    ensures DecodeAll(EncodeAll(items)) == Some(items)
    decreases items, |items|
  {
    hide Encode, Decode, LengthLimit;
    if items != [] {
      var first, more := Encode(items[0]), EncodeAll(items[1..]);
      DecodesItem(items[0], more);
      DecodesAll(items[1..]);
      assert (first + more)[|first|..] == more;
      assert items == [items[0]] + items[1..];
    }
  }

  // A decoder recovers any item from its encoding followed by anything.
  lemma {:induction false} DecodesItem(item: Item, rest: Bytes)
    requires |Encode(item)| < LengthLimit()
    ensures Decode(Encode(item) + rest) == Some(Parsed(item, |Encode(item)|))
    decreases item, 0
  {
    match item
    case Octets(bytes) => DecodesOctets(bytes, rest);
    case Sequence(items) => DecodesSequence(items, rest);
  }

  lemma DecodesOctets(bytes: Bytes, rest: Bytes)
    requires |Encode(Octets(bytes))| < LengthLimit()
    ensures Decode(Encode(Octets(bytes)) + rest) == Some(Parsed(Octets(bytes), |Encode(Octets(bytes))|))
  {
    if OwnEncoding(bytes) {
      assert (bytes + rest)[0] == bytes[0] && bytes == [bytes[0]];
    } else {
      PayloadReads(bytes, 0x80, rest);
      hide LengthPrefix, ReadPayload, LengthLimit, OwnEncoding;
      var prefix := LengthPrefix(|bytes|, 0x80);
      assert (prefix + bytes + rest)[0] == prefix[0];
    }
  }

  // Every input the strict decoder accepts is the encoding of what it returns.
  lemma {:induction false} ReencodesItem(b: Bytes)
    requires Decode(b).Some?
    ensures Encode(Decode(b).value.value) == b[..Decode(b).value.used]
    decreases |b|, 0
  {
    hide Encode, Decode, DecodeAll, EncodeAll, ReadHeader;
    if b[0] < 0xc0 {
      ReencodesOctets(b);
    } else {
      var body := SequenceBody(b);
      ReencodesAll(body);
      ReencodesSequence(b, body);
    }
  }

  lemma ReencodesOctets(b: Bytes)
    requires Decode(b).Some? && b[0] < 0xc0
    ensures Encode(Decode(b).value.value) == b[..Decode(b).value.used]
  {
    if b[0] >= 0x80 {
      PayloadWrites(b, 0x80);
      hide LengthPrefix, ReadPayload, OwnEncoding;
    } else {
      assert b[..1] == [b[0]];
    }
  }

  function SequenceBody(b: Bytes): (body: Bytes)
    requires Decode(b).Some? && b[0] >= 0xc0
    ensures |body| < |b| && DecodeAll(body).Some?
  {
    ReadPayload(b, 0xc0).value.value
  }

  lemma ReencodesSequence(b: Bytes, body: Bytes)
    requires Decode(b).Some? && b[0] >= 0xc0 && body == SequenceBody(b) && EncodeAll(DecodeAll(body).value) == body
    ensures Encode(Decode(b).value.value) == b[..Decode(b).value.used]
  {
    PayloadWrites(b, 0xc0);
    hide LengthPrefix, ReadPayload, EncodeAll, DecodeAll;
  }

  lemma {:induction false} ReencodesAll(b: Bytes)
    requires DecodeAll(b).Some?
    ensures EncodeAll(DecodeAll(b).value) == b
    decreases |b|, 1
  {
    hide Encode, Decode, EncodeAll, DecodeAll;
    if b == [] {
      NothingLeft();
    } else {
      FirstOfAll(b);
      var first := Decode(b).value;
      var rest := b[first.used..];
      ReencodesItem(b);
      ReencodesAll(rest);
      AllSplits(first.value, DecodeAll(rest).value);
      assert b == b[..first.used] + rest;
    }
  }

  lemma NothingLeft()
    ensures DecodeAll([]) == Some([]) && EncodeAll([]) == []
  {
  }

  lemma FirstOfAll(b: Bytes)
    requires b != [] && DecodeAll(b).Some?
    ensures Decode(b).Some?
    ensures var first := Decode(b).value;
            && DecodeAll(b[first.used..]).Some?
            && DecodeAll(b).value == [first.value] + DecodeAll(b[first.used..]).value
  {
    hide Decode;
  }

  lemma AllSplits(item: Item, more: seq<Item>)
    ensures EncodeAll([item] + more) == Encode(item) + EncodeAll(more)
  {
    hide Encode;
    assert ([item] + more)[1..] == more;
  }

  // No encoding is a proper prefix of another.
  lemma SelfDelimiting(x: Item, y: Item, rest: Bytes)
    requires |Encode(x)| < LengthLimit() && |Encode(y)| < LengthLimit() && Encode(y) == Encode(x) + rest
    ensures x == y && rest == []
  {
    DecodesItem(x, rest);
    DecodesItem(y, []);
    assert Encode(y) + [] == Encode(y);
  }

  // ---- Typed transactions ----------------------------------------------------------------------

  datatype Transaction = Transaction(
    chainId: nat,
    nonce: nat,
    maxPriorityFeePerGas: nat,
    maxFeePerGas: nat,
    gasLimit: nat,
    to: Option<Bytes>,
    value: nat,
    data: Bytes)

  // No recipient creates a contract from `data`.
  predicate ValidTransaction(tx: Transaction) {
    tx.to.Some? ==> |tx.to.value| == 20
  }

  function Fields(tx: Transaction): seq<Item> {
    [ Octets(QuantityBytes(tx.chainId)), Octets(QuantityBytes(tx.nonce)), Octets(QuantityBytes(tx.maxPriorityFeePerGas)),
      Octets(QuantityBytes(tx.maxFeePerGas)), Octets(QuantityBytes(tx.gasLimit)),
      Octets(if tx.to.None? then [] else tx.to.value), Octets(QuantityBytes(tx.value)), Octets(tx.data), Sequence([]) ]
  }

  // The bytes whose hash a sender signs.
  function SigningPreimage(tx: Transaction): Bytes {
    [2] + Encode(Sequence(Fields(tx)))
  }

  // A number in big-endian bytes without a leading zero.
  predicate IsQuantity(item: Item, n: nat) {
    item.Octets? && FromBigEndian(item.bytes) == n && (item.bytes != [] ==> item.bytes[0] != 0)
  }

  lemma QuantityReads(n: nat)
    ensures IsQuantity(Octets(QuantityBytes(n)), n)
  {
    QuantityIsMinimal(n);
    MinBytesValue(n);
  }

  // The nine fields of a fee-market transaction by their places, as EIP-1559 lists them; the access list is empty.
  predicate InPlace(xs: seq<Item>, tx: Transaction) {
    && |xs| == 9
    && IsQuantity(xs[0], tx.chainId) && IsQuantity(xs[1], tx.nonce)
    && IsQuantity(xs[2], tx.maxPriorityFeePerGas) && IsQuantity(xs[3], tx.maxFeePerGas) && IsQuantity(xs[4], tx.gasLimit)
    && xs[5] == Octets(if tx.to.Some? then tx.to.value else []) && IsQuantity(xs[6], tx.value) && xs[7] == Octets(tx.data)
    && xs[8] == Sequence([])
  }

  lemma FieldsInPlace(tx: Transaction)
    ensures InPlace(Fields(tx), tx)
  {
    QuantityReads(tx.chainId);
    QuantityReads(tx.nonce);
    QuantityReads(tx.maxPriorityFeePerGas);
    QuantityReads(tx.maxFeePerGas);
    QuantityReads(tx.gasLimit);
    QuantityReads(tx.value);
    hide QuantityBytes, IsQuantity;
  }

  // What a strict decoder finds after the type byte: one list, nothing after it, every field in its place.
  lemma PreimageReads(tx: Transaction) returns (xs: seq<Item>)
    requires |SigningPreimage(tx)| <= LengthLimit()
    ensures SigningPreimage(tx)[..1] == [2]
    ensures Decode(SigningPreimage(tx)[1..]) == Some(Parsed(Sequence(xs), |SigningPreimage(tx)| - 1))
    ensures InPlace(xs, tx)
  {
    xs := Fields(tx);
    FieldsInPlace(tx);
    var body := Encode(Sequence(xs));
    assert SigningPreimage(tx)[1..] == body;
    assert body + [] == body;
    hide Fields, Encode, Decode, LengthLimit;
    DecodesItem(Sequence(xs), []);
  }

  lemma QuantityTellsApart(m: nat, n: nat)
    requires QuantityBytes(m) == QuantityBytes(n)
    ensures m == n
  {
    QuantityIsMinimal(m);
    QuantityIsMinimal(n);
    MinBytesValue(m);
    MinBytesValue(n);
  }

  lemma PreimageTellsApart(s: Transaction, t: Transaction)
    requires ValidTransaction(s) && ValidTransaction(t)
    requires |SigningPreimage(s)| <= LengthLimit() && |SigningPreimage(t)| <= LengthLimit()
    requires SigningPreimage(s) == SigningPreimage(t)
    ensures s == t
  {
    var x, y := Sequence(Fields(s)), Sequence(Fields(t));
    assert SigningPreimage(s)[1..] == Encode(x) && SigningPreimage(t)[1..] == Encode(y);
    assert Encode(y) == Encode(x) + [];
    hide Encode, Fields, LengthLimit, SigningPreimage;
    SelfDelimiting(x, y, []);
    SameFields(s, t);
  }

  lemma SameFields(s: Transaction, t: Transaction)
    requires ValidTransaction(s) && ValidTransaction(t) && Fields(s) == Fields(t)
    ensures s == t
  {
    hide QuantityBytes;
    var f, g := Fields(s), Fields(t);
    assert f[0] == g[0] && f[1] == g[1] && f[2] == g[2] && f[3] == g[3] && f[4] == g[4] && f[5] == g[5] && f[6] == g[6] && f[7] == g[7];
    QuantityTellsApart(s.chainId, t.chainId);
    QuantityTellsApart(s.nonce, t.nonce);
    QuantityTellsApart(s.maxPriorityFeePerGas, t.maxPriorityFeePerGas);
    QuantityTellsApart(s.maxFeePerGas, t.maxFeePerGas);
    QuantityTellsApart(s.gasLimit, t.gasLimit);
    QuantityTellsApart(s.value, t.value);
  }
}
