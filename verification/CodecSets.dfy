// Sets on the wire: a bounded count, elements whose spans must ascend, then canonical order
// (packages/core/src/encoding.ts:136-158, 245-261; packages/core/src/terms.ts:997-1040).
module CodecSets {
  import opened Common
  import opened Canonical
  import opened Codec

  function WriteItems<T(!new)>(c: Codec<T>, items: seq<T>): Bytes {
    if items == [] then [] else c.write(items[0]) + WriteItems(c, items[1..])
  }

  // `previous` is the raw span of the element before, which the next one must strictly exceed.
  function ReadItems<T(!new)>(c: Codec<T>, bytes: Bytes, n: nat, previous: Option<Bytes>): Option<Decoded<seq<T>>>
    decreases n
  {
    if n == 0 then Some(Decoded([], 0, 0))
    else match c.read(bytes)
      case None => None
      case Some(x) =>
        if x.used > |bytes| || (previous.Some? && !Below(previous.value, bytes[..x.used])) then None
        else match ReadItems(c, bytes[x.used..], n - 1, Some(bytes[..x.used]))
          case None => None
          case Some(more) => Some(Decoded([x.value] + more.value, x.used + more.used, x.marks + more.marks))
  }

  ghost predicate AllValid<T(!new)>(c: Codec<T>, items: seq<T>) {
    forall i :: 0 <= i < |items| ==> c.valid(items[i])
  }

  ghost predicate Follows<T(!new)>(c: Codec<T>, previous: Option<Bytes>, items: seq<T>) {
    previous.Some? && items != [] ==> Below(previous.value, c.write(items[0]))
  }

  lemma TailFollows<T(!new)>(c: Codec<T>, items: seq<T>)
    requires items != [] && AllValid(c, items) && Ascending(items, c.write)
    ensures AllValid(c, items[1..]) && Ascending(items[1..], c.write) && Follows(c, Some(c.write(items[0])), items[1..])
  {
    assert forall i :: 0 <= i < |items[1..]| ==> items[1..][i] == items[i + 1];
  }

  lemma {:induction false} ItemsDecode<T(!new)>(c: Codec<T>, items: seq<T>, rest: Bytes, previous: Option<Bytes>)
    requires Good(c) && AllValid(c, items) && Ascending(items, c.write) && Follows(c, previous, items)
    ensures ReadItems(c, WriteItems(c, items) + rest, |items|, previous) == Some(Decoded(items, |WriteItems(c, items)|, 0))
    decreases |items|
  {
    if items != [] {
      hide Good, AllValid, Ascending, Follows;
      var bytes := WriteItems(c, items) + rest;
      var first := c.write(items[0]);
      assert bytes == first + (WriteItems(c, items[1..]) + rest);
      Decodes(c, items[0], WriteItems(c, items[1..]) + rest);
      assert bytes[..|first|] == first && bytes[|first|..] == WriteItems(c, items[1..]) + rest;
      TailFollows(c, items);
      ItemsDecode(c, items[1..], rest, Some(first));
      assert items == [items[0]] + items[1..];
    }
  }

  lemma {:induction false} ItemsAccepted<T(!new)>(c: Codec<T>, bytes: Bytes, n: nat, previous: Option<Bytes>)
    requires Good(c) && ReadItems(c, bytes, n, previous).Some?
    ensures var d := ReadItems(c, bytes, n, previous).value;
            && |d.value| == n && AllValid(c, d.value) && d.used <= |bytes|
            && d.used == |WriteItems(c, d.value)| + 3 * d.marks
            && (d.marks == 0 ==>
                  && bytes[..d.used] == WriteItems(c, d.value)
                  && Ascending(d.value, c.write) && Follows(c, previous, d.value))
            && (d.marks > 0 ==> HasMark(bytes))
    decreases n
  {
    if n > 0 {
      Accepted(c, bytes);
      var x := c.read(bytes).value;
      var tail := bytes[x.used..];
      ItemsAccepted(c, tail, n - 1, Some(bytes[..x.used]));
      var more := ReadItems(c, tail, n - 1, Some(bytes[..x.used])).value;
      var items := [x.value] + more.value;
      assert items[1..] == more.value;
      assert bytes[..x.used + more.used] == bytes[..x.used] + tail[..more.used];
      if x.marks + more.marks == 0 {
        AscendingCons(x.value, more.value, c.write);
      }
      if more.marks > 0 {
        MarkInSuffix(bytes, x.used);
      }
    }
  }

  lemma AscendingCons<T(!new)>(x: T, xs: seq<T>, write: T -> Bytes)
    requires Ascending(xs, write) && (xs != [] ==> Below(write(x), write(xs[0])))
    ensures Ascending([x] + xs, write)
  {
    var r := [x] + xs;
    forall i | 0 < i < |r| ensures Below(write(r[i - 1]), write(r[i])) {
      assert r[i] == xs[i - 1];
      if i > 1 {
        assert r[i - 1] == xs[i - 2];
      }
    }
  }

  // ---- Order does not change the length --------------------------------------------------------

  lemma {:induction false} InsertLength<T(!new)>(c: Codec<T>, x: T, xs: seq<T>)
    ensures |WriteItems(c, Insert(x, xs, c.write))| == |c.write(x)| + |WriteItems(c, xs)|
    decreases |xs|
  {
    var r := Insert(x, xs, c.write);
    if xs == [] || Below(c.write(x), c.write(xs[0])) {
      assert r[1..] == xs;
    } else {
      InsertLength(c, x, xs[1..]);
      assert r[1..] == Insert(x, xs[1..], c.write);
    }
  }

  lemma {:induction false} AppendItems<T(!new)>(c: Codec<T>, xs: seq<T>, x: T)
    ensures WriteItems(c, xs + [x]) == WriteItems(c, xs) + c.write(x)
    decreases |xs|
  {
    if xs == [] {
      assert xs + [x] == [x] && [x][1..] == [];
    } else {
      AppendItems(c, xs[1..], x);
      assert (xs + [x])[1..] == xs[1..] + [x];
    }
  }

  lemma {:induction false} SortLength<T(!new)>(c: Codec<T>, xs: seq<T>)
    ensures |WriteItems(c, Sort(xs, c.write))| == |WriteItems(c, xs)|
    decreases |xs|
  {
    if xs != [] {
      var front, last := xs[..|xs| - 1], xs[|xs| - 1];
      SortLength(c, front);
      InsertLength(c, last, Sort(front, c.write));
      AppendItems(c, front, last);
      assert xs == front + [last];
    }
  }

  // ---- The set codec ---------------------------------------------------------------------------

  // Element rules (a minimum size, distinct keys) do not depend on the listing.
  ghost predicate Unordered<T(!new)>(rule: seq<T> -> bool) {
    forall xs: seq<T>, ys: seq<T> :: multiset(xs) == multiset(ys) && rule(xs) ==> rule(ys)
  }

  function ReadList<T(!new)>(c: Codec<T>, max: nat, bytes: Bytes): Option<Decoded<seq<T>>> {
    if |bytes| < 2 then None
    else
      var n := FromBigEndian(bytes[..2]);
      if n > max then None
      else match ReadItems(c, bytes[2..], n, None)
        case None => None
        case Some(d) => Some(d.(used := 2 + d.used))
  }

  function ReadSet<T(!new)>(c: Codec<T>, max: nat, rule: seq<T> -> bool, bytes: Bytes): Option<Decoded<seq<T>>> {
    match ReadList(c, max, bytes)
    case None => None
    case Some(d) =>
      if !rule(d.value) then None
      else match CanonicalSet(d.value, c.write)
        case Refused(_) => None
        case Ok(sorted) => Some(Decoded(sorted, d.used, d.marks))
  }

  function SetOf<T(!new)>(c: Codec<T>, max: nat, rule: seq<T> -> bool): Codec<seq<T>> {
    Codec(
      (xs: seq<T>) => |xs| <= max && rule(xs) && (forall i :: 0 <= i < |xs| ==> c.valid(xs[i])) && Ascending(xs, c.write),
      (xs: seq<T>) => BigEndian(|xs|, 2) + WriteItems(c, xs),
      (bytes: Bytes) => ReadSet(c, max, rule, bytes))
  }

  lemma SetDecodes<T(!new)>(c: Codec<T>, max: nat, rule: seq<T> -> bool, xs: seq<T>, rest: Bytes)
    requires Good(c) && max <= 0xffff && SetOf(c, max, rule).valid(xs)
    ensures var s := SetOf(c, max, rule); s.read(s.write(xs) + rest) == Some(Decoded(xs, |s.write(xs)|, 0))
  {
    hide Good, ReadItems, WriteItems, CanonicalSet, BigEndian, FromBigEndian;
    var bytes := BigEndian(|xs|, 2) + WriteItems(c, xs) + rest;
    assert Base(2) == 65536 by {
      assert Base(1) == 256;
    }
    BigEndianInverse(|xs|, 2);
    assert bytes[..2] == BigEndian(|xs|, 2) && bytes[2..] == WriteItems(c, xs) + rest;
    ItemsDecode(c, xs, rest, None);
    CanonicalOfAscending(xs, c.write);
  }

  lemma ListAccepted<T(!new)>(c: Codec<T>, max: nat, bytes: Bytes)
    requires Good(c) && ReadList(c, max, bytes).Some?
    ensures var d := ReadList(c, max, bytes).value;
            && |d.value| <= max && AllValid(c, d.value) && d.used <= |bytes|
            && d.used == 2 + |WriteItems(c, d.value)| + 3 * d.marks
            && (d.marks == 0 ==>
                  && bytes[..d.used] == BigEndian(|d.value|, 2) + WriteItems(c, d.value)
                  && Ascending(d.value, c.write))
            && (d.marks > 0 ==> HasMark(bytes))
  {
    hide Good, ReadItems, WriteItems, BigEndian, FromBigEndian, Ascending;
    var n := FromBigEndian(bytes[..2]);
    FromBigEndianInverse(bytes[..2]);
    ItemsAccepted(c, bytes[2..], n, None);
    var d := ReadItems(c, bytes[2..], n, None).value;
    if d.marks == 0 {
      assert bytes[..2 + d.used] == bytes[..2] + bytes[2..][..d.used];
    } else {
      MarkInSuffix(bytes, 2);
    }
  }

  lemma SetAccepted<T(!new)>(c: Codec<T>, max: nat, rule: seq<T> -> bool, bytes: Bytes)
    requires Good(c) && Unordered(rule) && ReadSet(c, max, rule, bytes).Some?
    ensures Accepts(SetOf(c, max, rule), bytes, ReadSet(c, max, rule, bytes).value)
  {
    hide Good, ReadList, WriteItems, BigEndian, HasMark;
    ListAccepted(c, max, bytes);
    var d := ReadList(c, max, bytes).value;
    var sorted := CanonicalSet(d.value, c.write).value;
    CanonicalSetIs(d.value, c.write);
    SortLength(c, d.value);
    forall i | 0 <= i < |sorted| ensures c.valid(sorted[i]) {
      assert sorted[i] in multiset(d.value);
    }
    assert |multiset(sorted)| == |multiset(d.value)|;
    assert rule(sorted);
    if d.marks == 0 {
      CanonicalOfAscending(d.value, c.write);
    }
  }

  lemma SetOfGood<T(!new)>(c: Codec<T>, max: nat, rule: seq<T> -> bool)
    requires Good(c) && max <= 0xffff && Unordered(rule)
    ensures Good(SetOf(c, max, rule))
  {
    var s := SetOf(c, max, rule);
    forall xs: seq<T>, rest: Bytes | s.valid(xs) ensures s.read(s.write(xs) + rest) == Some(Decoded(xs, |s.write(xs)|, 0)) {
      SetDecodes(c, max, rule, xs, rest);
    }
    forall bytes: Bytes | s.read(bytes).Some? ensures Accepts(s, bytes, s.read(bytes).value) {
      SetAccepted(c, max, rule, bytes);
    }
  }
}
