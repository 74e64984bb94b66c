/** The mesh asset's reader as the source has it: a cursor over bytes, advanced by loops. After a
    success the cursor stands where the reading function of the same bytes says; after a failure
    nothing is promised of it, since every caller gives up. */
module MeshAssetReader {
  import opened Prelude
  import opened Llsd
  import opened LlsdObject
  import opened MeshQuantize
  import opened MeshAsset

  lemma {:induction false} WordGrows(b: Bytes, pos: nat, i: nat)
    requires pos + i < |b|
    ensures WordOf(b[pos..pos + i + 1]) == 256 * WordOf(b[pos..pos + i]) + b[pos + i] as int
  {
    var w := b[pos..pos + i + 1];
    assert w[..|w| - 1] == b[pos..pos + i];
  }

  class Cursor {
    const data: Bytes
    var at: nat

    constructor (data: Bytes)
      ensures this.data == data && at == 0
    {
      this.data := data;
      at := 0;
    }

    method Peek() returns (r: Option<Byte>)
      ensures r == if at < |data| then Some(data[at]) else None
    {
      return if at >= |data| then None else Some(data[at]);
    }

    /** `width` bytes, most significant first: four for a count, eight for a double. */
    method Word(width: nat) returns (r: Option<nat>)
      modifies this
      ensures Answers(ReadWord(data, old(at), width), r, at)
    {
      if at + width > |data| {
        return None;
      }
      var value, index := 0, 0;
      while index < width
        invariant index <= width && at == old(at) && value == WordOf(data[at..at + index])
      {
        WordGrows(data, at, index);
        value := 256 * value + data[at + index] as int;
        index := index + 1;
      }
      at := at + width;
      return Some(value);
    }

    method Expect(tag: Byte) returns (ok: bool)
      modifies this
      ensures ok == MeshAsset.Expect(data, old(at), tag).Got?
      ensures at == if ok then old(at) + 1 else old(at)
    {
      var next := Peek();
      if next != Some(tag) {
        return false;
      }
      at := at + 1;
      return true;
    }

    method Open(tag: Byte) returns (r: Option<nat>)
      modifies this
      ensures Answers(ReadOpen(data, old(at), tag), r, at)
    {
      var ok := Expect(tag);
      if !ok {
        return None;
      }
      r := Word(4);
    }

    method Real(p: Platform) returns (r: Option<Float>)
      modifies this
      ensures Answers(ReadReal(p, data, old(at)), r, at)
    {
      var ok := Expect('r');
      if !ok {
        return None;
      }
      var bits := Word(8);
      return if bits == None then None else Some(p.value(bits.value));
    }

    method Integer() returns (r: Option<int32>)
      modifies this
      ensures Answers(ReadInteger(data, old(at)), r, at)
    {
      var ok := Expect('i');
      if !ok {
        return None;
      }
      var value := Word(4);
      return if value == None then None else Some(Wrap32(value.value));
    }

    /** A key, a string or a binary: a tag, a length and that many bytes. */
    method Tagged(tag: Byte) returns (r: Option<Bytes>)
      modifies this
      ensures Answers(ReadTagged(data, old(at), tag), r, at)
    {
      var ok := Expect(tag);
      if !ok {
        return None;
      }
      var size := Word(4);
      if size == None || at + size.value > |data| {
        return None;
      }
      r := Some(data[at..at + size.value]);
      at := at + size.value;
    }

    method Key() returns (r: Option<Bytes>)
      modifies this
      ensures Answers(ReadKey(data, old(at)), r, at)
    {
      r := Tagged('k');
    }

    method Boolean() returns (r: Option<bool>)
      modifies this
      ensures Answers(ReadBoolean(data, old(at)), r, at)
    {
      var next := Peek();
      if next == None || (next.value != '1' && next.value != '0') {
        return None;
      }
      at := at + 1;
      return Some(next.value == '1');
    }

    /** Past one value. Every entry of a map or an array is passed in turn, and its bracket seen. */
    method Skip() returns (ok: bool)
      modifies this
      ensures match MeshAsset.Skip(data, old(at)) case Some(end) => ok && at == end case None => !ok
      decreases if at <= |data| then |data| - at else 0, 1
    {
      hide ReadWord, ReadCounted, SkipMembers, SkipElements;
      var next := Peek();
      if next == None {
        return false;
      }
      match next.value {
        case 'r' => ok := Passed(8);
        case 'i' => ok := Passed(4);
        case 'b' =>
          var payload := Tagged('b');
          return payload.Some?;
        case '1' | '0' | '!' =>
          at := at + 1;
          return true;
        case '{' => ok := SkipMap();
        case '[' => ok := SkipArray();
        case _ => return false;
      }
    }

    method Passed(width: nat) returns (ok: bool)
      requires at < |data|
      modifies this
      ensures match ReadWord(data, old(at) + 1, width) case Got(_, end) => ok && at == end case Bad => !ok
    {
      at := at + 1;
      var value := Word(width);
      return value.Some?;
    }

    method SkipMap() returns (ok: bool)
      requires at < |data| && data[at] == '{'
      modifies this
      ensures match MeshAsset.Skip(data, old(at)) case Some(end) => ok && at == end case None => !ok
      decreases |data| - at, 0
    {
      hide ReadWord, MeshAsset.Skip;
      var count := Open('{');
      MapSkips(data, old(at));
      if count == None {
        return false;
      }
      ghost var start := at;
      var index := 0;
      while index < count.value
        invariant index <= count.value && old(at) < at && (old(at) < |data| ==> at <= |data|)
        invariant SkipMembers(data, start, count.value) == SkipMembers(data, at, count.value - index)
      {
        var key := Key();
        if key == None {
          return false;
        }
        ok := Skip();
        if !ok {
          return false;
        }
        index := index + 1;
      }
      ok := Expect('}');
    }

    method SkipArray() returns (ok: bool)
      requires at < |data| && data[at] == '['
      modifies this
      ensures match MeshAsset.Skip(data, old(at)) case Some(end) => ok && at == end case None => !ok
      decreases |data| - at, 0
    {
      hide ReadWord, MeshAsset.Skip;
      var count := Open('[');
      ArraySkips(data, old(at));
      if count == None {
        return false;
      }
      ghost var start := at;
      var index := 0;
      while index < count.value
        invariant index <= count.value && old(at) < at && (old(at) < |data| ==> at <= |data|)
        invariant SkipElements(data, start, count.value) == SkipElements(data, at, count.value - index)
      {
        ok := Skip();
        if !ok {
          return false;
        }
        index := index + 1;
      }
      ok := Expect(']');
    }

    /** Exactly `d` reals between brackets. */
    method Components(p: Platform, d: nat) returns (r: Option<Vector>)
      modifies this
      ensures Answers(ReadVector(p, data, old(at), d), r, at)
    {
      hide ReadOpen, ReadReal;
      var count := Open('[');
      if count == None || count.value != d {
        return None;
      }
      ghost var start := at;
      var values: Vector := [];
      AfterNone(ReadReals(p, data, at, d));
      while |values| < d
        invariant |values| <= d
        invariant ReadReals(p, data, start, d) == After(values, ReadReals(p, data, at, d - |values|))
      {
        ghost var before := at;
        var value := Real(p);
        if value == None {
          return None;
        }
        AfterOne(values, value.value, ReadReals(p, data, at, d - |values| - 1));
        assert ReadReals(p, data, before, d - |values|) == Before(value.value, ReadReals(p, data, at, d - |values| - 1));
        values := values + [value.value];
      }
      assert values + [] == values;
      var ok := Expect(']');
      return if ok then Some(values) else None;
    }
  }

  lemma MapSkips(b: Bytes, pos: nat)
    requires pos < |b| && b[pos] == '{'
    ensures MeshAsset.Skip(b, pos) ==
      match ReadOpen(b, pos, '{')
      case Bad => None
      case Got(count, next) => SkipEnd(b, SkipMembers(b, next, count), '}')
  {
    hide ReadWord, SkipMembers;
  }

  lemma ArraySkips(b: Bytes, pos: nat)
    requires pos < |b| && b[pos] == '['
    ensures MeshAsset.Skip(b, pos) ==
      match ReadOpen(b, pos, '[')
      case Bad => None
      case Got(count, next) => SkipEnd(b, SkipElements(b, next, count), ']')
  {
    hide ReadWord, SkipElements;
  }
}
