// The reader and writer as the program runs them: a position moved through a buffer, chunks joined at the end
// (packages/core/src/encoding.ts:171-261; packages/kernel/src/encoding/{reader,writer}.ts).
module Reader {
  import opened Common
  import opened Canonical
  import opened Codec
  import opened CodecSets

  class CoreReader {
    const bytes: Bytes
    var position: nat

    constructor (input: Bytes)
      ensures bytes == input && position == 0
    {
      bytes := input;
      position := 0;
    }

    ghost predicate Valid()
      reads this
    {
      position <= |bytes|
    }

    // What has not been read.
    ghost function Ahead(): Bytes
      reads this
      requires Valid()
    {
      bytes[position..]
    }

    // The state after a functional read: moved past what was used, or a failure that leaves nothing to trust.
    ghost predicate Took<T(!new)>(start: nat, d: Option<Decoded<T>>, r: Option<T>)
      reads this
    {
      && Valid()
      && (r.Some? <==> d.Some?)
      && (d.Some? ==> r.value == d.value.value && position == start + d.value.used)
    }

    method Raw(n: nat) returns (r: Option<Bytes>)
      requires Valid()
      modifies this`position
      ensures Valid()
      ensures r == if n <= |old(Ahead())| then Some(old(Ahead())[..n]) else None
      ensures position == if r.Some? then old(position) + n else old(position)
    {
      if |bytes| - position < n {
        return None;
      }
      r := Some(bytes[position..position + n]);
      position := position + n;
      assert bytes[old(position)..][..n] == bytes[old(position)..old(position) + n];
    }

    method UInt(width: nat) returns (r: Option<int>)
      requires Valid()
      modifies this`position
      ensures Took(old(position), ReadUInt(old(Ahead()), width), r)
    {
      var raw := Raw(width);
      if raw.None? {
        return None;
      }
      var b := raw.value;
      var v := 0;
      var i := 0;
      while i < |b|
        invariant 0 <= i <= |b|
        invariant v == FromBigEndian(b[..i])
      {
        assert b[..i + 1][..i] == b[..i];
        v := v * 256 + b[i] as int;
        i := i + 1;
      }
      assert b[..i] == b;
      r := Some(v);
    }

    method Flag() returns (r: Option<bool>)
      requires Valid()
      modifies this`position
      ensures Valid()
      ensures r.Some? <==> old(Ahead()) != [] && old(Ahead())[0] <= 1
      ensures r.Some? ==> r.value == (old(Ahead())[0] == 1) && position == old(position) + 1
    {
      var v := UInt(1);
      if v.None? {
        return None;
      }
      assert FromBigEndian(old(Ahead())[..1]) == old(Ahead())[0] as int by {
        assert old(Ahead())[..1][..0] == [];
      }
      r := if v.value == 0 then Some(false) else if v.value == 1 then Some(true) else None;
    }

    // One element, read at the current position.
    method Item<T(!new)>(c: Codec<T>) returns (r: Option<T>)
      requires Valid() && Good(c)
      modifies this`position
      ensures Took(old(position), c.read(old(Ahead())), r)
    {
      var d := c.read(bytes[position..]);
      if d.None? {
        return None;
      }
      Accepted(c, bytes[position..]);
      position := position + d.value.used;
      r := Some(d.value.value);
    }

    // The elements of a list, whose spans must strictly ascend.
    method Elements<T(!new)>(c: Codec<T>, n: nat) returns (r: Option<seq<T>>)
      requires Valid() && Good(c)
      modifies this`position
      ensures Took(old(position), ReadItems(c, old(Ahead()), n, None), r)
    {
      hide Good, ReadItems, Resumes;
      ghost var all := Ahead();
      var begin := position;
      ResumesNow(ReadItems(c, all, n, None));
      var out: seq<T> := [];
      var previous: Option<Bytes> := None;
      var i := 0;
      while i < n
        invariant 0 <= i <= n && begin <= position <= |bytes|
        invariant Resumes(ReadItems(c, all, n, None), out, position - begin, ReadItems(c, bytes[position..], n - i, previous))
      {
        var start := position;
        ghost var left := Ahead();
        ResumesStep(c, left, n - i, previous, ReadItems(c, all, n, None), out, start - begin);
        var x := Item(c);
        if x.None? {
          return None;
        }
        var span := bytes[start..position];
        assert span == left[..position - start];
        assert left[position - start..] == Ahead();
        if previous.Some? {
          var order := CompareBytes(previous.value, span);
          if order >= 0 {
            return None;
          }
        }
        out := out + [x.value];
        previous := Some(span);
        i := i + 1;
      }
      ResumesEnd(c, Ahead(), previous, ReadItems(c, all, n, None), out, position - begin);
      r := Some(out);
    }

    // A bounded count, then the elements.
    method List<T(!new)>(c: Codec<T>, max: nat) returns (r: Option<seq<T>>)
      requires Valid() && Good(c)
      modifies this`position
      ensures Took(old(position), ReadList(c, max, old(Ahead())), r)
    {
      hide Good, ReadItems;
      ghost var all := Ahead();
      var count := UInt(2);
      if count.None? || count.value > max {
        return None;
      }
      assert all[2..] == Ahead();
      r := Elements(c, count.value);
    }
  }

  // A whole read equals what has been taken so far followed by what remains to be read.
  ghost predicate Resumes<T(!new)>(whole: Option<Decoded<seq<T>>>, taken: seq<T>, used: nat, rest: Option<Decoded<seq<T>>>) {
    && (whole.Some? <==> rest.Some?)
    && (whole.Some? ==> whole.value.value == taken + rest.value.value && whole.value.used == used + rest.value.used)
  }

  lemma ResumesNow<T(!new)>(whole: Option<Decoded<seq<T>>>)
    ensures Resumes(whole, [], 0, whole)
  {
  }

  lemma ResumesEnd<T(!new)>(c: Codec<T>, left: Bytes, previous: Option<Bytes>, whole: Option<Decoded<seq<T>>>, taken: seq<T>, used: nat)
    requires Resumes(whole, taken, used, ReadItems(c, left, 0, previous))
    ensures whole.Some? && whole.value.value == taken && whole.value.used == used
  {
  }

  // One element more: the read goes on behind its span, or the whole read fails.
  lemma ResumesStep<T(!new)>(c: Codec<T>, left: Bytes, n: nat, previous: Option<Bytes>,
                             whole: Option<Decoded<seq<T>>>, taken: seq<T>, used: nat)
    requires Good(c) && n > 0 && Resumes(whole, taken, used, ReadItems(c, left, n, previous))
    ensures c.read(left).Some? ==> c.read(left).value.used <= |left|
    ensures
      if c.read(left).None? || (previous.Some? && !Below(previous.value, left[..c.read(left).value.used])) then whole.None?
      else
        var d := c.read(left).value;
        Resumes(whole, taken + [d.value], used + d.used, ReadItems(c, left[d.used..], n - 1, Some(left[..d.used])))
  {
    if c.read(left).Some? {
      Accepted(c, left);
    }
  }

  class ByteWriter {
    var chunks: seq<Bytes>

    constructor ()
      ensures Written() == []
    {
      chunks := [];
    }

    // What finishing now would return.
    ghost function Written(): Bytes
      reads this
    {
      Flatten(chunks)
    }

    method Raw(b: Bytes)
      modifies this
      ensures Written() == old(Written()) + b
    {
      FlattenAppend(chunks, b);
      chunks := chunks + [b];
    }

    // Fills a fixed-width buffer from its low end; an out-of-range value is refused and writes nothing.
    method UInt(value: int, width: nat) returns (ok: bool)
      modifies this
      ensures ok <==> 0 <= value < Base(width)
      ensures Written() == if ok then old(Written()) + BigEndian(value, width) else old(Written())
    {
      if value < 0 || value >= Base(width) {
        return false;
      }
      var out := new Byte[width];
      var v := value;
      var i := width;
      assert [] == out[width..];
      while i > 0
        modifies out
        invariant 0 <= i <= width && v >= 0
        invariant BigEndian(value, width) == BigEndian(v, i) + out[i..]
      {
        i := i - 1;
        ghost var tail := out[i + 1..];
        out[i] := (v % 256) as Byte;
        assert out[i..] == [(v % 256) as Byte] + tail;
        v := v / 256;
      }
      assert BigEndian(v, 0) + out[0..] == out[..];
      Raw(out[..]);
      ok := true;
    }

    // Length-prefixed text; longer than 1024 bytes is refused.
    method Str(s: string) returns (ok: bool)
      requires PlainText(s)
      modifies this
      ensures ok <==> |s| <= 1024
      ensures Written() == if ok then old(Written()) + TextCodec(Anything).write(s) else old(Written())
    {
      var b := TextBytes(s);
      if |b| > 1024 {
        return false;
      }
      assert Base(2) == 65536 by {
        assert Base(1) == 256;
      }
      var sized := UInt(|b|, 2);
      Raw(b);
      ok := true;
    }

    method Items<T(!new)>(c: Codec<T>, items: seq<T>)
      modifies this
      ensures Written() == old(Written()) + WriteItems(c, items)
    {
      var i := 0;
      while i < |items|
        invariant 0 <= i <= |items|
        invariant Written() == old(Written()) + WriteItems(c, items[..i])
      {
        AppendItems(c, items[..i], items[i]);
        assert items[..i + 1] == items[..i] + [items[i]];
        Raw(c.write(items[i]));
        i := i + 1;
      }
      assert items[..i] == items;
    }

    method Finish() returns (r: Bytes)
      ensures r == Written()
    {
      r := [];
      var i := 0;
      while i < |chunks|
        invariant 0 <= i <= |chunks|
        invariant r == Flatten(chunks[..i])
      {
        FlattenAppend(chunks[..i], chunks[i]);
        assert chunks[..i + 1] == chunks[..i] + [chunks[i]];
        r := r + chunks[i];
        i := i + 1;
      }
      assert chunks[..i] == chunks;
    }
  }

  predicate Anything(s: string) {
    true
  }

  function Flatten(chunks: seq<Bytes>): Bytes {
    if chunks == [] then [] else chunks[0] + Flatten(chunks[1..])
  }

  lemma {:induction false} FlattenAppend(chunks: seq<Bytes>, b: Bytes)
    ensures Flatten(chunks + [b]) == Flatten(chunks) + b
  {
    if chunks == [] {
      assert [b][1..] == [];
    } else {
      assert (chunks + [b])[1..] == chunks[1..] + [b];
      FlattenAppend(chunks[1..], b);
    }
  }
}
