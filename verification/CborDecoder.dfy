/** The decoder object: a cursor that its methods advance. */
module CborDecoder {
  import opened Prelude
  import opened Cbor

  /** The rest of a list or dict once `done` was read. */
  function WithItems(done: seq<Value>, rest: Result<(seq<Value>, Bytes), DecodeError>)
    : Result<(seq<Value>, Bytes), DecodeError>
  {
    match rest
    case Ok((items, behind)) => Ok((done + items, behind))
    case Err(e) => Err(e)
  }

  function WithPairs(done: seq<Entry>, rest: Result<(seq<Entry>, Bytes), DecodeError>)
    : Result<(seq<Entry>, Bytes), DecodeError>
  {
    match rest
    case Ok((pairs, behind)) => Ok((done + pairs, behind))
    case Err(e) => Err(e)
  }

  lemma NextItem(done: seq<Value>, n: nat, b: Bytes)
    requires n > 0 && Item(b).Ok?
    ensures WithItems(done, Items(n, b)) == WithItems(done + [Item(b).value.0], Items(n - 1, Item(b).value.1))
  {
    hide Item;
    var others := Items(n - 1, Item(b).value.1);
    if others.Ok? {
      assert done + ([Item(b).value.0] + others.value.0) == done + [Item(b).value.0] + others.value.0;
    }
  }

  lemma NextPair(done: seq<Entry>, n: nat, b: Bytes)
    requires n > 0 && Item(b).Ok? && Item(Item(b).value.1).Ok? && Hashable(Item(b).value.0)
    ensures var (key, behind) := Item(b).value;
            var (value, rest) := Item(behind).value;
            WithPairs(done, Pairs(n, b)) == WithPairs(done + [Entry(key, value)], Pairs(n - 1, rest))
  {
    hide Item, Hashable;
    var (key, behind) := Item(b).value;
    var (value, rest) := Item(behind).value;
    var others := Pairs(n - 1, rest);
    if others.Ok? {
      assert done + ([Entry(key, value)] + others.value.0) == done + [Entry(key, value)] + others.value.0;
    }
  }

  lemma NothingDone(items: Result<(seq<Value>, Bytes), DecodeError>, pairs: Result<(seq<Entry>, Bytes), DecodeError>)
    ensures WithItems([], items) == items && WithPairs([], pairs) == pairs
  {
    if items.Ok? { assert [] + items.value.0 == items.value.0; }
    if pairs.Ok? { assert [] + pairs.value.0 == pairs.value.0; }
  }

  lemma BuildNext(pairs: seq<Entry>, e: Entry)
    ensures Build(pairs + [e]) == Put(Build(pairs), e)
  {
    assert (pairs + [e])[..|pairs|] == pairs;
  }

  class Decoder {
    const value: Bytes
    var offset: nat

    predicate Valid()
      reads this
    {
      offset <= |value|
    }

    function Rest(): Bytes
      requires Valid()
      reads this
    {
      value[offset..]
    }

    constructor (value: Bytes)
      ensures Valid() && this.value == value && Rest() == value
    {
      this.value := value;
      offset := 0;
    }

    method Take(length: nat) returns (r: Result<Bytes, DecodeError>)
      requires Valid()
      modifies this
      ensures Valid()
      ensures if length <= old(|Rest()|) then r == Ok(old(Rest())[..length]) && Rest() == old(Rest())[length..]
              else r == Err(Truncated) && offset == old(offset)
      ensures r.Ok? ==> offset == old(offset) + length
    {
      var end := offset + length;
      if end > |value| {
        return Err(Truncated);
      }
      r := Ok(value[offset..end]);
      assert value[offset..][..length] == value[offset..end];
      assert value[offset..][length..] == value[end..];
      offset := end;
    }

    method TakeLength(additional: nat) returns (r: Result<nat, DecodeError>)
      requires Valid()
      modifies this
      ensures Valid() && offset >= old(offset)
      ensures match Length(additional, old(Rest()))
              case Ok((n, rest)) => r == Ok(n) && Rest() == rest
              case Err(e) => r == Err(e)
    {
      hide FromBigEndian;
      if additional < 24 {
        return Ok(additional);
      }
      if additional > 27 {
        return Err(Indefinite);
      }
      var bytes := Take(LengthSize(additional));
      if bytes.Err? {
        return Err(bytes.error);
      }
      return Ok(FromBigEndian(bytes.value));
    }

    /** One item from the cursor on. The cursor moves by at least one byte, which is why it ends. */
    method TakeItem() returns (r: Result<Value, DecodeError>)
      requires Valid()
      modifies this
      ensures Valid()
      ensures match Item(old(Rest()))
              case Ok((v, rest)) => r == Ok(v) && Rest() == rest && offset > old(offset)
              case Err(e) => r == Err(e)
      decreases |value| - offset, 0
    {
      hide FromBigEndian, Length, Items, Pairs, Build, Utf8;
      ghost var start := Rest();
      var first := Take(1);
      if first.Err? {
        return Err(first.error);
      }
      var initial := first.value[0];
      assert initial == start[0];
      var major, additional := initial / 32, initial % 32;
      if major == 7 {
        if additional == 20 {
          return Ok(Bool(false));
        }
        if additional == 21 {
          return Ok(Bool(true));
        }
        return Err(UnsupportedSimple);
      }
      var head := TakeLength(additional);
      if head.Err? {
        return Err(head.error);
      }
      var length := head.value;
      if major == 0 {
        return Ok(Int(length));
      }
      if major == 1 {
        var number: int := length;
        return Ok(Int(-1 - number));
      }
      if major == 2 {
        var bytes := Take(length);
        return if bytes.Ok? then Ok(Blob(bytes.value)) else Err(bytes.error);
      }
      if major == 3 {
        var bytes := Take(length);
        if bytes.Err? {
          return Err(bytes.error);
        }
        return if Utf8(bytes.value) then Ok(Text(bytes.value)) else Err(InvalidText);
      }
      if major == 4 {
        r := TakeList(length);
        return r;
      }
      if major == 5 {
        r := TakeDict(length);
        return r;
      }
      var content := TakeItem();
      return if content.Ok? then Ok(Tagged(length, content.value)) else Err(content.error);
    }

    method TakeList(length: nat) returns (r: Result<Value, DecodeError>)
      requires Valid()
      modifies this
      ensures Valid()
      ensures match Items(length, old(Rest()))
              case Ok((items, rest)) => r == Ok(List(items)) && Rest() == rest && offset >= old(offset)
              case Err(e) => r == Err(e)
      decreases |value| - offset, 1
    {
      hide Item, WithItems;
      var items: seq<Value> := [];
      NothingDone(Items(length, Rest()), Ok(([], [])));
      for i := 0 to length
        invariant Valid() && offset >= old(offset)
        invariant Items(length, old(Rest())) == WithItems(items, Items(length - i, Rest()))
      {
        ghost var before := Rest();
        ItemFails(items, length - i, before);
        var item := TakeItem();
        if item.Err? {
          return Err(item.error);
        }
        NextItem(items, length - i, before);
        items := items + [item.value];
      }
      AllDone(items, [], Rest());
      return Ok(List(items));
    }

    /** The dict is filled as its pairs come; a key that is there already keeps its place. */
    method TakeDict(length: nat) returns (r: Result<Value, DecodeError>)
      requires Valid()
      modifies this
      ensures Valid()
      ensures match Pairs(length, old(Rest()))
              case Ok((pairs, rest)) => r == Ok(Dict(Build(pairs))) && Rest() == rest && offset >= old(offset)
              case Err(e) => r == Err(e)
      decreases |value| - offset, 1
    {
      hide Item, WithPairs, Hashable, Build, Put;
      var entries: seq<Entry> := [];
      ghost var pairs: seq<Entry> := [];
      NothingDone(Ok(([], [])), Pairs(length, Rest()));
      assert Build([]) == [] by { EmptyDict(); }
      for i := 0 to length
        invariant Valid() && offset >= old(offset)
        invariant Pairs(length, old(Rest())) == WithPairs(pairs, Pairs(length - i, Rest()))
        invariant entries == Build(pairs)
      {
        ghost var before := Rest();
        PairFails(pairs, length - i, before);
        var key := TakeItem();
        if key.Err? {
          return Err(key.error);
        }
        var item := TakeItem();
        if item.Err? {
          return Err(item.error);
        }
        if !Hashable(key.value) {
          return Err(UnhashableKey);
        }
        NextPair(pairs, length - i, before);
        BuildNext(pairs, Entry(key.value, item.value));
        entries := Put(entries, Entry(key.value, item.value));
        pairs := pairs + [Entry(key.value, item.value)];
      }
      AllDone([], pairs, Rest());
      return Ok(Dict(entries));
    }
  }

  lemma EmptyDict()
    ensures Build([]) == []
  {
  }

  lemma AllDone(items: seq<Value>, pairs: seq<Entry>, rest: Bytes)
    ensures WithItems(items, Items(0, rest)) == Ok((items, rest))
    ensures WithPairs(pairs, Pairs(0, rest)) == Ok((pairs, rest))
  {
    assert items + [] == items && pairs + [] == pairs;
  }

  lemma ItemFails(done: seq<Value>, n: nat, b: Bytes)
    ensures n > 0 && Item(b).Err? ==> WithItems(done, Items(n, b)) == Err(Item(b).error)
  {
    hide Item;
  }

  lemma PairFails(done: seq<Entry>, n: nat, b: Bytes)
    ensures n > 0 && Item(b).Err? ==> WithPairs(done, Pairs(n, b)) == Err(Item(b).error)
    ensures n > 0 && Item(b).Ok? ==>
              var (key, behind) := Item(b).value;
              && (Item(behind).Err? ==> WithPairs(done, Pairs(n, b)) == Err(Item(behind).error))
              && (Item(behind).Ok? && !Hashable(key) ==> WithPairs(done, Pairs(n, b)) == Err(UnhashableKey))
  {
    hide Item, Hashable;
  }

  method DecodeAll(value: Bytes) returns (r: Result<Value, DecodeError>)
    ensures r == Decode(value)
  {
    hide Item;
    var decoder := new Decoder(value);
    var output := decoder.TakeItem();
    if output.Err? {
      return output;
    }
    if decoder.offset != |value| {
      return Err(Trailing);
    }
    return output;
  }
}
