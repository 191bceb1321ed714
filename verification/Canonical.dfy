// Canonical order: byte comparison, sets and term lists (packages/core/src/encoding.ts:115-158, terms.ts:1016-1040).
module Canonical {
  import opened Common
  import opened Core

  // ---- Lexicographic order of byte strings -----------------------------------------------------

  // -1, 0 or 1; a proper prefix comes first.
  function Order(a: Bytes, b: Bytes): int {
    if a == [] && b == [] then 0
    else if a == [] then -1
    else if b == [] then 1
    else if a[0] < b[0] then -1
    else if a[0] > b[0] then 1
    else Order(a[1..], b[1..])
  }

  predicate Below(a: Bytes, b: Bytes) {
    Order(a, b) < 0
  }

  lemma {:induction false} OrderEqual(a: Bytes, b: Bytes)
    ensures Order(a, b) == 0 <==> a == b
    ensures -1 <= Order(a, b) <= 1
    decreases |a|
  {
    if a != [] && b != [] && a[0] == b[0] {
      OrderEqual(a[1..], b[1..]);
      assert a == [a[0]] + a[1..] && b == [b[0]] + b[1..];
    }
  }

  lemma {:induction false} OrderFlips(a: Bytes, b: Bytes)
    ensures Order(a, b) == -Order(b, a)
    decreases |a|
  {
    if a != [] && b != [] && a[0] == b[0] {
      OrderFlips(a[1..], b[1..]);
    }
  }

  lemma {:induction false} BelowTransitive(a: Bytes, b: Bytes, c: Bytes)
    requires Below(a, b) && Below(b, c)
    ensures Below(a, c)
    decreases |a|
  {
    if a != [] && b != [] && c != [] && a[0] == b[0] && b[0] == c[0] {
      BelowTransitive(a[1..], b[1..], c[1..]);
    }
  }

  lemma {:induction false} OrderPrefix(p: Bytes, a: Bytes, b: Bytes)
    ensures Order(p + a, p + b) == Order(a, b)
    decreases |p|
  {
    if p == [] {
      assert p + a == a && p + b == b;
    } else {
      assert (p + a)[1..] == p[1..] + a && (p + b)[1..] == p[1..] + b;
      OrderPrefix(p[1..], a, b);
    }
  }

  // The strings agree up to `at`, where `a` ends first or has the lesser byte.
  predicate FirstAt(a: Bytes, b: Bytes, at: nat) {
    && at <= |a| && at < |b| && a[..at] == b[..at]
    && (at == |a| || a[at] < b[at])
  }

  predicate Before(a: Bytes, b: Bytes) {
    exists at: nat :: at < |b| && FirstAt(a, b, at)
  }

  lemma OrderAt(a: Bytes, b: Bytes, at: nat)
    requires FirstAt(a, b, at)
    ensures Order(a, b) == -1
  {
    OrderPrefix(a[..at], a[at..], b[at..]);
    assert a == a[..at] + a[at..] && b == b[..at] + b[at..];
  }

  lemma {:induction false} BelowHas(a: Bytes, b: Bytes) returns (at: nat)
    requires Below(a, b)
    ensures FirstAt(a, b, at)
    decreases |a|
  {
    at := 0;
    if a != [] && a[0] == b[0] {
      var rest := BelowHas(a[1..], b[1..]);
      at := rest + 1;
      assert a[..at] == [a[0]] + a[1..][..rest] && b[..at] == [b[0]] + b[1..][..rest];
    }
  }

  // The first differing byte decides; with none, the shorter string comes first.
  lemma BelowIs(a: Bytes, b: Bytes)
    ensures Below(a, b) <==> Before(a, b)
  {
    if Below(a, b) {
      var at := BelowHas(a, b);
    }
    if Before(a, b) {
      var at: nat :| at < |b| && FirstAt(a, b, at);
      OrderAt(a, b, at);
    }
  }

  method CompareBytes(a: Bytes, b: Bytes) returns (r: int)
    ensures r == Order(a, b)
    ensures (r < 0 <==> Before(a, b)) && (r > 0 <==> Before(b, a)) && (r == 0 <==> a == b)
  {
    BelowIs(a, b);
    BelowIs(b, a);
    OrderFlips(a, b);
    OrderEqual(a, b);
    hide Before;
    var n := if |a| < |b| then |a| else |b|;
    var i := 0;
    while i < n
      invariant 0 <= i <= n
      invariant a[..i] == b[..i]
    {
      var d: int := a[i] as int - b[i] as int;
      if d != 0 {
        OrderPrefix(a[..i], a[i..], b[i..]);
        assert a == a[..i] + a[i..] && b == b[..i] + b[i..];
        return if d < 0 then -1 else 1;
      }
      i := i + 1;
    }
    OrderPrefix(a[..n], a[n..], b[n..]);
    assert a == a[..n] + a[n..] && b == b[..n] + b[n..];
    r := if |a| == |b| then 0 else if |a| < |b| then -1 else 1;
  }

  // ---- Sorting by encoding ---------------------------------------------------------------------

  function Insert<T(!new)>(x: T, xs: seq<T>, write: T -> Bytes): (r: seq<T>)
    ensures |r| == |xs| + 1
  {
    if xs == [] || Below(write(x), write(xs[0])) then [x] + xs else [xs[0]] + Insert(x, xs[1..], write)
  }

  function Sort<T(!new)>(xs: seq<T>, write: T -> Bytes): (r: seq<T>)
    ensures |r| == |xs|
  {
    if xs == [] then [] else Insert(xs[|xs| - 1], Sort(xs[..|xs| - 1], write), write)
  }

  // Neighbours are in order: what a reader checks, and enough for the whole list to be.
  predicate Ascending<T(!new)>(xs: seq<T>, write: T -> Bytes) {
    forall i :: 0 < i < |xs| ==> Below(write(xs[i - 1]), write(xs[i]))
  }

  predicate NonDescending<T(!new)>(xs: seq<T>, write: T -> Bytes) {
    forall i :: 0 < i < |xs| ==> !Below(write(xs[i]), write(xs[i - 1]))
  }

  lemma {:induction false} InsertKeeps<T(!new)>(x: T, xs: seq<T>, write: T -> Bytes)
    requires NonDescending(xs, write)
    ensures NonDescending(Insert(x, xs, write), write)
    ensures multiset(Insert(x, xs, write)) == multiset(xs) + multiset{x}
    ensures Insert(x, xs, write)[0] == x || (xs != [] && Insert(x, xs, write)[0] == xs[0])
    decreases |xs|
  {
    if xs != [] && !Below(write(x), write(xs[0])) {
      assert forall i :: 0 <= i < |xs[1..]| ==> xs[1..][i] == xs[i + 1];
      InsertKeeps(x, xs[1..], write);
      assert xs == [xs[0]] + xs[1..];
      var rest := Insert(x, xs[1..], write);
      var r := Insert(x, xs, write);
      assert r == [xs[0]] + rest;
      forall i | 0 < i < |r| ensures !Below(write(r[i]), write(r[i - 1])) {
        if i == 1 {
          assert r[1] == rest[0];
          if rest[0] != x {
            assert xs[1] == rest[0];
          }
        } else {
          assert r[i] == rest[i - 1] && r[i - 1] == rest[i - 2];
        }
      }
    } else if xs != [] {
      OrderFlips(write(x), write(xs[0]));
      var r := [x] + xs;
      forall i | 0 < i < |r| ensures !Below(write(r[i]), write(r[i - 1])) {
        if i > 1 {
          assert r[i] == xs[i - 1] && r[i - 1] == xs[i - 2];
        }
      }
    }
  }

  lemma {:induction false} SortSorts<T(!new)>(xs: seq<T>, write: T -> Bytes)
    ensures NonDescending(Sort(xs, write), write)
    ensures multiset(Sort(xs, write)) == multiset(xs)
    decreases |xs|
  {
    if xs != [] {
      SortSorts(xs[..|xs| - 1], write);
      InsertKeeps(xs[|xs| - 1], Sort(xs[..|xs| - 1], write), write);
      assert xs == xs[..|xs| - 1] + [xs[|xs| - 1]];
    }
  }

  lemma {:induction false} AscendingAcross<T(!new)>(xs: seq<T>, write: T -> Bytes, i: nat, j: nat)
    requires Ascending(xs, write) && i < j < |xs|
    ensures Below(write(xs[i]), write(xs[j]))
    decreases j - i
  {
    if i + 1 < j {
      AscendingAcross(xs, write, i + 1, j);
      BelowTransitive(write(xs[i]), write(xs[i + 1]), write(xs[j]));
    } else {
      assert xs[j - 1] == xs[i];
    }
  }

  lemma SameFirst<T(!new)>(xs: seq<T>, ys: seq<T>, write: T -> Bytes)
    requires Ascending(xs, write) && Ascending(ys, write) && multiset(xs) == multiset(ys) && xs != [] && ys != []
    ensures xs[0] == ys[0]
  {
    assert xs[0] in multiset(ys) && ys[0] in multiset(xs);
    var j :| 0 <= j < |ys| && ys[j] == xs[0];
    var i :| 0 <= i < |xs| && xs[i] == ys[0];
    if j > 0 && i > 0 {
      OrderFlips(write(xs[0]), write(ys[0]));
      AscendingAcross(ys, write, 0, j);
      AscendingAcross(xs, write, 0, i);
      assert false;
    }
  }

  // A set of encodings has exactly one ascending listing.
  lemma {:induction false} AscendingUnique<T(!new)>(xs: seq<T>, ys: seq<T>, write: T -> Bytes)
    requires Ascending(xs, write) && Ascending(ys, write) && multiset(xs) == multiset(ys)
    ensures xs == ys
    decreases |xs|
  {
    assert |multiset(xs)| == |xs| && |multiset(ys)| == |ys|;
    if xs != [] {
      SameFirst(xs, ys, write);
      var u, v := xs[1..], ys[1..];
      assert xs == [xs[0]] + u && ys == [ys[0]] + v;
      assert multiset(u) == multiset(xs) - multiset{xs[0]};
      assert multiset(v) == multiset(ys) - multiset{ys[0]};
      AscendingUnique(u, v, write);
    }
  }

  // Two ascending lists with the same members are the same list.
  lemma {:induction false} AscendingSameMembers<T(!new)>(xs: seq<T>, ys: seq<T>, write: T -> Bytes)
    requires Ascending(xs, write) && Ascending(ys, write) && forall x :: x in xs <==> x in ys
    ensures xs == ys
    decreases |xs|
  {
    assert |ys| > 0 ==> ys[0] in ys;
    if xs != [] {
      assert xs[0] in ys && ys[0] in xs;
      var j :| 0 <= j < |ys| && ys[j] == xs[0];
      var i :| 0 <= i < |xs| && xs[i] == ys[0];
      if j > 0 && i > 0 {
        OrderFlips(write(xs[0]), write(ys[0]));
        AscendingAcross(ys, write, 0, j);
        AscendingAcross(xs, write, 0, i);
        assert false;
      }
      MembersAfterFirst(xs, write);
      MembersAfterFirst(ys, write);
      AscendingSameMembers(xs[1..], ys[1..], write);
    }
  }

  lemma MembersAfterFirst<T(!new)>(xs: seq<T>, write: T -> Bytes)
    requires Ascending(xs, write) && xs != []
    ensures xs == [xs[0]] + xs[1..] && Ascending(xs[1..], write)
    ensures forall x :: x in xs[1..] <==> x in xs && x != xs[0]
  {
    assert xs == [xs[0]] + xs[1..];
    forall k | 0 < k < |xs| ensures xs[k] != xs[0] {
      AscendingAcross(xs, write, 0, k);
      OrderEqual(write(xs[0]), write(xs[k]));
    }
    forall x | x in xs && x != xs[0] ensures x in xs[1..] {
      var k :| 0 <= k < |xs| && xs[k] == x;
      assert xs[1..][k - 1] == x;
    }
  }

  lemma SortedAscendsUnlessDuplicate<T(!new)>(xs: seq<T>, write: T -> Bytes)
    requires NonDescending(xs, write)
    ensures Ascending(xs, write) <==> forall i :: 0 < i < |xs| ==> write(xs[i - 1]) != write(xs[i])
  {
    forall i | 0 < i < |xs| ensures Below(write(xs[i - 1]), write(xs[i])) <==> write(xs[i - 1]) != write(xs[i]) {
      OrderEqual(write(xs[i - 1]), write(xs[i]));
      OrderFlips(write(xs[i - 1]), write(xs[i]));
    }
  }

  // ---- Canonical sets --------------------------------------------------------------------------

  // Sorted by encoded bytes; a duplicate is refused, never collapsed.
  function CanonicalSet<T(!new)>(items: seq<T>, write: T -> Bytes): Result<seq<T>> {
    var sorted := Sort(items, write);
    if exists i :: 0 < i < |sorted| && write(sorted[i - 1]) == write(sorted[i]) then Refused("DUPLICATE_SET_MEMBER") else Ok(sorted)
  }

  // Two members with one encoding.
  predicate Duplicated<T(!new)>(items: seq<T>, write: T -> Bytes) {
    exists i, j :: 0 <= i < j < |items| && write(items[i]) == write(items[j])
  }

  lemma CanonicalSetIs<T(!new)>(items: seq<T>, write: T -> Bytes)
    ensures CanonicalSet(items, write).Ok? <==> Ascending(Sort(items, write), write)
    ensures CanonicalSet(items, write).Ok? ==>
              Ascending(CanonicalSet(items, write).value, write) && multiset(CanonicalSet(items, write).value) == multiset(items)
  {
    SortSorts(items, write);
    SortedAscendsUnlessDuplicate(Sort(items, write), write);
  }

  // The listing order of the input is irrelevant: every permutation yields the same list, or none does.
  lemma CanonicalSetIgnoresOrder<T(!new)>(xs: seq<T>, ys: seq<T>, write: T -> Bytes)
    requires multiset(xs) == multiset(ys)
    ensures CanonicalSet(xs, write) == CanonicalSet(ys, write)
  {
    CanonicalSetIs(xs, write);
    CanonicalSetIs(ys, write);
    SortSorts(xs, write);
    SortSorts(ys, write);
    if CanonicalSet(xs, write).Ok? {
      AscendsWhenPermuted(Sort(xs, write), Sort(ys, write), write);
      AscendingUnique(Sort(xs, write), Sort(ys, write), write);
    } else if CanonicalSet(ys, write).Ok? {
      AscendsWhenPermuted(Sort(ys, write), Sort(xs, write), write);
    }
  }

  lemma AscendsWhenPermuted<T(!new)>(xs: seq<T>, ys: seq<T>, write: T -> Bytes)
    requires Ascending(xs, write) && NonDescending(ys, write) && multiset(xs) == multiset(ys)
    ensures Ascending(ys, write)
  {
    SortedAscendsUnlessDuplicate(ys, write);
    forall i | 0 < i < |ys| ensures write(ys[i - 1]) != write(ys[i]) {
      if write(ys[i - 1]) == write(ys[i]) {
        TwiceIn(ys, i - 1, i);
        AscendingHasNoTwins(xs, write, ys[i - 1], ys[i]);
        assert false;
      }
    }
  }

  lemma AscendingHasNoTwins<T(!new)>(xs: seq<T>, write: T -> Bytes, a: T, b: T)
    requires Ascending(xs, write) && multiset{a, b} <= multiset(xs)
    ensures write(a) != write(b)
  {
    OrderEqual(write(a), write(b));
    OrderFlips(write(a), write(b));
    var p, q := PositionsOf(xs, a, b);
    AscendingAcross(xs, write, Lesser(p, q), p + q - Lesser(p, q));
  }

  function Lesser(a: nat, b: nat): nat {
    if a < b then a else b
  }

  lemma SameMembers<T>(xs: seq<T>, ys: seq<T>)
    requires multiset(xs) == multiset(ys)
    ensures forall x :: x in xs <==> x in ys
  {
    forall x ensures x in xs <==> x in ys {
      assert x in multiset(xs) <==> x in multiset(ys);
    }
  }

  lemma TwiceIn<T>(ys: seq<T>, i: nat, j: nat)
    requires i < j < |ys|
    ensures multiset{ys[i], ys[j]} <= multiset(ys)
  {
    assert ys == ys[..i] + [ys[i]] + ys[i + 1..j] + [ys[j]] + ys[j + 1..];
    assert multiset(ys) == multiset(ys[..i]) + multiset{ys[i]} + multiset(ys[i + 1..j]) + multiset{ys[j]} + multiset(ys[j + 1..]);
  }

  lemma {:induction false} PositionsOf<T>(xs: seq<T>, a: T, b: T) returns (p: nat, q: nat)
    requires multiset{a, b} <= multiset(xs)
    ensures p < |xs| && q < |xs| && p != q && xs[p] == a && xs[q] == b
    decreases |xs|
  {
    assert a in multiset(xs);
    p :| 0 <= p < |xs| && xs[p] == a;
    var rest := xs[..p] + xs[p + 1..];
    assert xs == xs[..p] + [xs[p]] + xs[p + 1..];
    assert multiset(xs) == multiset(rest) + multiset{a};
    assert b in multiset(rest);
    var k :| 0 <= k < |rest| && rest[k] == b;
    q := if k < p then k else k + 1;
  }

  // Sorting a list without repetitions leaves it without repetitions.
  lemma SortKeepsDistinct<T(!new)>(xs: seq<T>, write: T -> Bytes)
    requires forall i, j :: 0 <= i < j < |xs| ==> xs[i] != xs[j]
    ensures multiset(Sort(xs, write)) == multiset(xs)
    ensures forall i, j :: 0 <= i < j < |xs| ==> Sort(xs, write)[i] != Sort(xs, write)[j]
  {
    var sorted := Sort(xs, write);
    SortSorts(xs, write);
    hide Sort;
    forall i, j | 0 <= i < j < |sorted| ensures sorted[i] != sorted[j] {
      TwiceIn(sorted, i, j);
      var p, q := PositionsOf(xs, sorted[i], sorted[j]);
      assert xs[Lesser(p, q)] != xs[p + q - Lesser(p, q)];
    }
  }

  // Refused exactly when two members have one encoding.
  lemma CanonicalSetRefusesDuplicates<T(!new)>(items: seq<T>, write: T -> Bytes)
    ensures CanonicalSet(items, write).Refused? <==> Duplicated(items, write)
  {
    var sorted := Sort(items, write);
    SortSorts(items, write);
    CanonicalSetIs(items, write);
    if Duplicated(items, write) && Ascending(sorted, write) {
      var i, j :| 0 <= i < j < |items| && write(items[i]) == write(items[j]);
      TwiceIn(items, i, j);
      AscendingHasNoTwins(sorted, write, items[i], items[j]);
      assert false;
    }
    if CanonicalSet(items, write).Refused? {
      SortedTwins(items, sorted, write);
    }
  }

  lemma SortedTwins<T(!new)>(items: seq<T>, sorted: seq<T>, write: T -> Bytes)
    requires multiset(items) == multiset(sorted)
    requires exists i :: 0 < i < |sorted| && write(sorted[i - 1]) == write(sorted[i])
    ensures Duplicated(items, write)
  {
    var i :| 0 < i < |sorted| && write(sorted[i - 1]) == write(sorted[i]);
    TwiceIn(sorted, i - 1, i);
    var p, q := PositionsOf(items, sorted[i - 1], sorted[i]);
    assert write(items[Lesser(p, q)]) == write(items[p + q - Lesser(p, q)]);
  }

  // A list that is already ascending is its own canonical form.
  lemma CanonicalOfAscending<T(!new)>(xs: seq<T>, write: T -> Bytes)
    requires Ascending(xs, write)
    ensures CanonicalSet(xs, write) == Ok(xs)
  {
    SortSorts(xs, write);
    AscendsWhenPermuted(xs, Sort(xs, write), write);
    AscendingUnique(xs, Sort(xs, write), write);
    CanonicalSetIs(xs, write);
  }

  // The source's loop form: encode, sort in place, then one pass over neighbours.
  method SortInto<T(!new)>(items: seq<T>, write: T -> Bytes) returns (r: Result<seq<T>>)
    ensures r == CanonicalSet(items, write)
  {
    var keyed: seq<T> := [];
    var n := 0;
    while n < |items|
      invariant 0 <= n <= |items|
      invariant keyed == Sort(items[..n], write)
    {
      assert items[..n + 1][..n] == items[..n];
      keyed := Insert(items[n], keyed, write);
      n := n + 1;
    }
    assert items[..n] == items;
    var i := 1;
    while i < |keyed|
      invariant 1 <= i
      invariant forall k :: 0 < k < i && k < |keyed| ==> write(keyed[k - 1]) != write(keyed[k])
    {
      var c := CompareBytes(write(keyed[i - 1]), write(keyed[i]));
      OrderEqual(write(keyed[i - 1]), write(keyed[i]));
      if c == 0 {
        return Refused("DUPLICATE_SET_MEMBER");
      }
      i := i + 1;
    }
    r := Ok(keyed);
  }

  // ---- Term lists ------------------------------------------------------------------------------

  // Duplicate keys are refused; the rest is put in ascending order of encoding.
  function TermList(terms: seq<Term>, write: Term -> Bytes): Result<seq<Term>> {
    if !DistinctKeys(terms) then Refused("DUPLICATE_TERM") else Ok(Sort(terms, write))
  }

  lemma DistinctKeysIgnoresOrder(xs: seq<Term>, ys: seq<Term>)
    requires multiset(xs) == multiset(ys) && DistinctKeys(xs)
    ensures DistinctKeys(ys)
  {
    forall i, j | 0 <= i < j < |ys| ensures KeyOf(ys[i]) != KeyOf(ys[j]) {
      TwiceIn(ys, i, j);
      var p, q := PositionsOf(xs, ys[i], ys[j]);
      assert KeyOf(xs[Lesser(p, q)]) != KeyOf(xs[p + q - Lesser(p, q)]);
    }
  }

  // An encoding that tells terms apart tells apart any two terms with different keys.
  ghost predicate Injective<T(!new)>(write: T -> Bytes, valid: T -> bool) {
    forall x, y :: valid(x) && valid(y) && write(x) == write(y) ==> x == y
  }

  // A grant's terms, hence its identity preimage, depend only on which terms it has.
  lemma TermListIgnoresOrder(xs: seq<Term>, ys: seq<Term>, write: Term -> Bytes, valid: Term -> bool)
    requires multiset(xs) == multiset(ys)
    requires Injective(write, valid) && forall x :: x in xs ==> valid(x)
    ensures TermList(xs, write) == TermList(ys, write)
  {
    if DistinctKeys(xs) {
      DistinctKeysIgnoresOrder(xs, ys);
      DistinctTermsAscend(xs, write, valid);
      assert forall y :: y in ys ==> y in multiset(xs);
      DistinctTermsAscend(ys, write, valid);
      SortSorts(xs, write);
      SortSorts(ys, write);
      AscendingUnique(Sort(xs, write), Sort(ys, write), write);
    } else if DistinctKeys(ys) {
      DistinctKeysIgnoresOrder(ys, xs);
    }
  }

  lemma DistinctTermsAscend(xs: seq<Term>, write: Term -> Bytes, valid: Term -> bool)
    requires DistinctKeys(xs) && Injective(write, valid) && forall x :: x in xs ==> valid(x)
    ensures Ascending(Sort(xs, write), write)
  {
    SortSorts(xs, write);
    DistinctKeysIgnoresOrder(xs, Sort(xs, write));
    SortedAscendsUnlessDuplicate(Sort(xs, write), write);
    forall i | 0 < i < |xs| ensures write(Sort(xs, write)[i - 1]) != write(Sort(xs, write)[i]) {
      var sorted := Sort(xs, write);
      assert sorted[i - 1] in multiset(sorted) && sorted[i] in multiset(sorted);
      assert KeyOf(sorted[i - 1]) != KeyOf(sorted[i]);
    }
  }
}
