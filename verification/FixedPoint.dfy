// Fixed-point text (packages/core/src/quantity.ts:726-749).
module FixedPoint {
  import opened Common
  import opened Core
  import opened Decimals

  // ---- Decimal digits --------------------------------------------------------------------------

  predicate IsDigit(c: char) {
    '0' <= c <= '9'
  }

  predicate AllDigits(ds: string) {
    forall i :: 0 <= i < |ds| ==> IsDigit(ds[i])
  }

  function DigitOf(n: nat): char
    requires n < 10
  {
    '0' + n as char
  }

  function Digits(n: nat): string {
    if n < 10 then [DigitOf(n)] else Digits(n / 10) + [DigitOf(n % 10)]
  }

  function Value(ds: string): nat
    requires AllDigits(ds)
  {
    if ds == [] then 0 else 10 * Value(ds[..|ds| - 1]) + (ds[|ds| - 1] as int - '0' as int)
  }

  // At least `width` digits, filled from the left.
  function Filled(n: nat, width: nat): string {
    if |Digits(n)| >= width then Digits(n) else ['0'] + Filled(n, width - 1)
  }

  // No leading zero, except zero itself.
  predicate Whole(ds: string) {
    AllDigits(ds) && (ds == "0" || (ds != [] && ds[0] != '0'))
  }

  lemma {:induction false} DigitsRead(n: nat)
    ensures Whole(Digits(n)) && Value(Digits(n)) == n
    ensures n > 0 ==> Digits(n)[0] != '0'
  {
    if n >= 10 {
      DigitsRead(n / 10);
      var ds := Digits(n);
      assert ds[..|ds| - 1] == Digits(n / 10);
    } else {
      var ds := Digits(n);
      assert ds[..0] == [];
    }
  }

  lemma {:induction false} DigitsShort(n: nat, k: nat)
    requires n < Pow10(k) && k > 0
    ensures |Digits(n)| <= k
  {
    if n >= 10 {
      assert Pow10(k) == 10 * Pow10(k - 1);
      if k > 1 {
        DigitsShort(n / 10, k - 1);
      }
    }
  }

  // The digits of a number are the only way to write it without a leading zero.
  lemma {:induction false} DigitsUnique(ds: string)
    requires AllDigits(ds) && ds != [] && (ds[0] != '0' || |ds| == 1)
    ensures Digits(Value(ds)) == ds
    ensures ds[0] != '0' ==> Value(ds) > 0
  {
    var front, last := ds[..|ds| - 1], ds[|ds| - 1];
    assert ds == front + [last];
    if front != [] {
      DigitsUnique(front);
      var n := Value(ds);
      assert n / 10 == Value(front) && n % 10 == last as int - '0' as int;
    }
  }

  lemma {:induction false} LeadingZero(ds: string)
    requires AllDigits(ds)
    ensures Value(['0'] + ds) == Value(ds)
  {
    if ds != [] {
      var front, last := ds[..|ds| - 1], ds[|ds| - 1];
      LeadingZero(front);
      var all := ['0'] + ds;
      assert all[..|all| - 1] == ['0'] + front && all[|all| - 1] == last;
    } else {
      assert ['0'][..0] == [];
    }
  }

  lemma {:induction false} FilledReads(n: nat, width: nat)
    ensures var ds := Filled(n, width);
            && AllDigits(ds) && Value(ds) == n && |ds| >= width && |ds| >= |Digits(n)|
            && (|ds| == width || ds == Digits(n))
  {
    DigitsRead(n);
    if |Digits(n)| < width {
      FilledReads(n, width - 1);
      LeadingZero(Filled(n, width - 1));
    }
  }

  // Any digit string is its value, filled to the string's own width.
  lemma {:induction false} FilledUnique(ds: string)
    requires AllDigits(ds) && ds != []
    ensures Filled(Value(ds), |ds|) == ds
    ensures |Digits(Value(ds))| <= |ds|
  {
    if ds[0] != '0' || |ds| == 1 {
      DigitsUnique(ds);
    } else {
      var rest := ds[1..];
      assert ds == ['0'] + rest;
      LeadingZero(rest);
      hide Digits, Value;
      FilledUnique(rest);
    }
  }

  // ---- Text ------------------------------------------------------------------------------------

  // A point before the last `decimals` digits.
  function Pointed(ds: string, decimals: nat): string
    requires decimals < |ds|
  {
    if decimals == 0 then ds else ds[..|ds| - decimals] + "." + ds[|ds| - decimals..]
  }

  function FormatFixed(atoms: int, decimals: nat): string {
    var size := if atoms < 0 then -atoms else atoms;
    FilledReads(size, decimals + 1);
    var text := Pointed(Filled(size, decimals + 1), decimals);
    if atoms < 0 then "-" + text else text
  }

  // The digits of an unsigned body with exactly `decimals` of them after the point.
  function Unpointed(body: string, decimals: nat): Option<string> {
    if decimals == 0 then (if Whole(body) then Some(body) else None)
    else if |body| < decimals + 2 then None
    else
      var point := |body| - decimals - 1;
      var whole, fraction := body[..point], body[point + 1..];
      if body[point] == '.' && Whole(whole) && AllDigits(fraction) then Some(whole + fraction) else None
  }

  // Zero carries no sign.
  function Signed(negative: bool, size: int): Option<int> {
    if negative && size == 0 then None else Some(if negative then -size else size)
  }

  function ParseFixed(text: string, decimals: int): Option<int> {
    if decimals < 0 || decimals > MAX_DECIMALS || |text| > 120 then None
    else
      var negative := text != [] && text[0] == '-';
      match Unpointed(if negative then text[1..] else text, decimals)
      case None => None
      case Some(ds) =>
        if !AllDigits(ds) then None
        else Signed(negative, Value(ds))
  }

  lemma UnpointedDigits(body: string, decimals: nat)
    requires Unpointed(body, decimals).Some?
    ensures var ds := Unpointed(body, decimals).value;
            AllDigits(ds) && |ds| > decimals && Pointed(ds, decimals) == body
            && (|ds| == decimals + 1 || ds[0] != '0') && body[0] != '-'
  {
    if decimals > 0 {
      var point := |body| - decimals - 1;
      var whole, fraction := body[..point], body[point + 1..];
      var ds := whole + fraction;
      assert ds[..|ds| - decimals] == whole && ds[|ds| - decimals..] == fraction;
      assert body == whole + "." + fraction;
      assert body[0] == whole[0];
    }
  }

  lemma PointedBack(ds: string, decimals: nat)
    requires AllDigits(ds) && |ds| > decimals && (|ds| == decimals + 1 || ds[0] != '0')
    ensures Unpointed(Pointed(ds, decimals), decimals) == Some(ds)
    ensures |Pointed(ds, decimals)| <= |ds| + 1 && Pointed(ds, decimals)[0] != '-'
  {
    if decimals > 0 {
      var split := |ds| - decimals;
      var whole, fraction := ds[..split], ds[split..];
      var body := whole + "." + fraction;
      assert |body| - decimals - 1 == split;
      assert body[..split] == whole && body[split] == '.' && body[split + 1..] == fraction;
      assert whole + fraction == ds;
      assert |ds| == decimals + 1 ==> whole == [ds[0]];
      assert |whole| == 1 || whole[0] != '0';
      assert body[0] == ds[0];
      assert Whole(whole);
    }
  }

  // ---- A bijection -----------------------------------------------------------------------------

  lemma FormatSize(n: nat, decimals: nat)
    requires decimals <= MAX_DECIMALS && n < Pow10(78)
    ensures var ds := Filled(n, decimals + 1);
            && AllDigits(ds) && decimals < |ds| <= 78 && Value(ds) == n
            && (|ds| == decimals + 1 || ds[0] != '0')
  {
    DigitsRead(n);
    DigitsShort(n, 78);
    FilledReads(n, decimals + 1);
    if n == 0 {
      assert Digits(0) == "0";
    }
  }

  lemma Pow10Product(a: nat, b: nat, c: nat, x: int, y: int, z: int)
    requires Pow10(a) == x && Pow10(b) == y && a + b == c && x * y == z
    ensures Pow10(c) == z
  {
    Pow10Sum(a, b);
  }

  lemma WordBelowPow10()
    ensures UINT256_LIMIT <= Pow10(78)
  {
    assert Pow10(13) == 10_000_000_000_000;
    hide Pow10;
    Pow10Product(13, 13, 26, 10_000_000_000_000, 10_000_000_000_000, 100_000_000_000_000_000_000_000_000);
    var ten26 := 100_000_000_000_000_000_000_000_000;
    Pow10Product(26, 26, 52, ten26, ten26, ten26 * ten26);
    Pow10Product(52, 26, 78, ten26 * ten26, ten26, ten26 * ten26 * ten26);
  }

  lemma ParsesDigits(ds: string, decimals: nat, negative: bool)
    requires decimals <= MAX_DECIMALS && AllDigits(ds) && decimals < |ds| <= 78 && (|ds| == decimals + 1 || ds[0] != '0')
    ensures var body := Pointed(ds, decimals);
            ParseFixed(if negative then "-" + body else body, decimals) == Signed(negative, Value(ds))
  {
    PointedBack(ds, decimals);
    hide Unpointed, Pointed, Value, Signed;
    var body := Pointed(ds, decimals);
    assert ("-" + body)[1..] == body && ("-" + body)[0] == '-';
  }

  lemma ParseOfSized(atoms: int, n: nat, decimals: nat, width: nat)
    requires decimals <= MAX_DECIMALS && width == decimals + 1 && n < Pow10(78) && (atoms == n || atoms + n == 0)
    ensures ParseFixed(FormatFixed(atoms, decimals), decimals) == Some(atoms)
  {
    FormatSize(n, decimals);
    hide Filled, Unpointed, Pointed, Value, Digits, Pow10, ParseFixed;
    ParsesDigits(Filled(n, width), decimals, atoms < 0);
  }

  // Every amount a quantity can hold survives being written and read.
  lemma ParseOfFormat(atoms: int, decimals: nat)
    requires decimals <= MAX_DECIMALS && INT256_MIN <= atoms <= UINT256_MAX
    ensures ParseFixed(FormatFixed(atoms, decimals), decimals) == Some(atoms)
  {
    WordBelowPow10();
    hide Pow10, ParseFixed, FormatFixed;
    ParseOfSized(atoms, if atoms < 0 then -atoms else atoms, decimals, decimals + 1);
  }

  lemma {:induction false} ValueSplits(a: string, b: string)
    requires AllDigits(a) && AllDigits(b)
    ensures AllDigits(a + b) && Value(a + b) == Value(a) * Pow10(|b|) + Value(b)
    decreases |b|
  {
    if b == [] {
      assert a + b == a;
    } else {
      var front, last := b[..|b| - 1], b[|b| - 1];
      ValueSplits(a, front);
      assert (a + b)[..|a + b| - 1] == a + front && (a + b)[|a + b| - 1] == last;
      assert Pow10(|b|) == 10 * Pow10(|front|);
      TenTimes(Value(a), Pow10(|front|), Value(front), last as int - '0' as int);
      hide Pow10;
    }
  }

  lemma TenTimes(x: int, k: int, y: int, d: int)
    ensures 10 * (x * k + y) + d == x * (10 * k) + (10 * y + d)
  {
  }

  // How an amount is written: a sign if it is negative, its whole part without leading zeros, and exactly `decimals`
  // digits of fraction behind a point.
  lemma TextMeans(atoms: int, decimals: nat) returns (whole: string, fraction: string)
    requires decimals <= MAX_DECIMALS && INT256_MIN <= atoms <= UINT256_MAX
    ensures Whole(whole) && AllDigits(fraction) && |fraction| == decimals
    ensures FormatFixed(atoms, decimals) == (if atoms < 0 then "-" else "") + whole + (if decimals == 0 then "" else "." + fraction)
    ensures Value(whole) * Pow10(decimals) + Value(fraction) == if atoms < 0 then -atoms else atoms
  {
    WordBelowPow10();
    var n, width := if atoms < 0 then -atoms else atoms, decimals + 1;
    hide Pow10, Value, Digits, Filled, FormatFixed;
    FormatSize(n, decimals);
    var ds := Filled(n, width);
    FormatIs(atoms, n, decimals, width, ds);
    whole, fraction := ds[..|ds| - decimals], ds[|ds| - decimals..];
    assert ds == whole + fraction;
    ValueSplits(whole, fraction);
    assert |ds| == width ==> whole == [ds[0]];
    assert whole[0] == ds[0];
  }

  // What an accepted text consists of.
  lemma AcceptedText(text: string, decimals: int) returns (negative: bool, ds: string)
    requires ParseFixed(text, decimals).Some?
    ensures 0 <= decimals <= MAX_DECIMALS && AllDigits(ds) && |ds| > decimals && (|ds| == decimals + 1 || ds[0] != '0')
    ensures text == if negative then "-" + Pointed(ds, decimals) else Pointed(ds, decimals)
    ensures Some(ParseFixed(text, decimals).value) == Signed(negative, Value(ds))
  {
    negative := text != [] && text[0] == '-';
    var body := if negative then text[1..] else text;
    UnpointedDigits(body, decimals);
    ds := Unpointed(body, decimals).value;
    hide Unpointed, Pointed, Value;
    assert negative ==> text == "-" + body;
  }

  // Every text the parser accepts is the one the formatter writes.
  lemma FormatOfParse(text: string, decimals: int)
    requires ParseFixed(text, decimals).Some?
    ensures FormatFixed(ParseFixed(text, decimals).value, decimals) == text
  {
    hide Filled, Pointed, Digits, FormatFixed, Value, ParseFixed;
    var negative, ds := AcceptedText(text, decimals);
    var n, width := Value(ds), decimals + 1;
    FilledAsWritten(ds, width);
    FormatIs(ParseFixed(text, decimals).value, n, decimals, width, ds);
  }

  lemma FormatIs(atoms: int, n: nat, decimals: nat, width: nat, ds: string)
    requires Filled(n, width) == ds && width == decimals + 1 && decimals < |ds| && (atoms == n || (atoms + n == 0 && n > 0))
    ensures FormatFixed(atoms, decimals) == if atoms < 0 then "-" + Pointed(ds, decimals) else Pointed(ds, decimals)
  {
    hide Filled, Pointed;
  }

  lemma FilledAsWritten(ds: string, width: nat)
    requires AllDigits(ds) && |ds| >= width > 0 && (|ds| == width || ds[0] != '0')
    ensures Filled(Value(ds), width) == ds
  {
    if |ds| == width {
      FilledUnique(ds);
    } else {
      DigitsUnique(ds);
    }
  }
}
