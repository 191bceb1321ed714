// Values every part of the model shares: results, bytes, widths of the integers the source checks.
module Common {

  datatype Option<+T> = None | Some(value: T)

  // A call that either yields a value or names the refusal the source would return.
  datatype Result<+T> = Ok(value: T) | Refused(code: string)

  type Byte = b: int | 0 <= b < 256

  type Bytes = seq<Byte>

  // Hashing is modelled injectively: a digest is the tree of values it was computed from.
  datatype Digest = Raw(bytes: Bytes) | Text(text: string) | Number(n: int) | Keccak(parts: seq<Digest>)

  function Width(d: Digest): nat {
    match d
    case Raw(bytes) => |bytes|
    case Text(text) => |text|
    case Number(_) => 32
    case Keccak(_) => 32
  }

  predicate IsDigest(d: Bytes) {
    |d| == 32
  }

  // The all-zero digest stands for an uninitialised field and is refused where content must be named.
  predicate AllZero(d: Bytes) {
    forall i :: 0 <= i < |d| ==> d[i] == 0
  }

  const UINT32_MAX: int := 0xffff_ffff
  const UINT64_MAX: int := 0xffff_ffff_ffff_ffff
  const INT64_MIN: int := -0x8000_0000_0000_0000
  const INT64_MAX: int := 0x7fff_ffff_ffff_ffff
  const UINT256_LIMIT: int :=
    0x1_0000_0000_0000_0000_0000_0000_0000_0000_0000_0000_0000_0000_0000_0000_0000_0000
  const UINT256_MAX: int := UINT256_LIMIT - 1
  const INT256_MAX: int := UINT256_LIMIT / 2 - 1
  const INT256_MIN: int := -(UINT256_LIMIT / 2)

  function Min(a: int, b: int): int {
    if a <= b then a else b
  }

  function Max(a: int, b: int): int {
    if a >= b then a else b
  }

  // ---- Text as the encoder sees it -------------------------------------------------------------

  function TextBytes(s: string): Bytes {
    seq(|s|, i requires 0 <= i < |s| => (s[i] as int % 256) as Byte)
  }

  predicate PlainText(s: string) {
    forall i :: 0 <= i < |s| ==> s[i] as int < 128
  }

  lemma PlainTextInjective(a: string, b: string)
    requires PlainText(a) && PlainText(b) && TextBytes(a) == TextBytes(b)
    ensures a == b
  {
    assert |a| == |TextBytes(a)| == |TextBytes(b)| == |b|;
    forall i | 0 <= i < |a| ensures a[i] == b[i] {
      assert TextBytes(a)[i] == TextBytes(b)[i];
    }
  }
}
