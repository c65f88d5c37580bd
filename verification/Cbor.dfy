/** The deterministic CBOR of the manifest tool: a recursive encoder that sorts map entries by their encoded
    keys, and a cursor decoder. Sections 4.2.1 and 4.2.3 of RFC 8949 describe the form. */
module Cbor {
  import opened Prelude

  /** The Python values the tool handles. A dict is its entries in insertion order; text is its UTF-8
      encoding; a tagged item is the pair the decoder makes of it. */
  datatype Value =
    | Bool(flag: bool)
    | Int(number: int)
    | Blob(bytes: Bytes)
    | Text(utf8: Bytes)
    | List(items: seq<Value>)
    | Dict(entries: seq<Entry>)
    | Tagged(tag: nat, content: Value)

  datatype Entry = Entry(key: Value, value: Value)

  datatype DecodeError = Truncated | Indefinite | UnsupportedSimple | InvalidText | UnhashableKey | Trailing

  // ---- Python's values ----

  predicate Continues(b: byte) {
    0x80 <= b < 0xC0
  }

  /** Well-formed UTF-8: no overlong forms, no surrogates, nothing above U+10FFFF. */
  predicate Utf8(b: Bytes)
    decreases |b|
  {
    if b == [] then true
    else if b[0] < 0x80 then Utf8(b[1..])
    else if 0xC2 <= b[0] < 0xE0 then |b| >= 2 && Continues(b[1]) && Utf8(b[2..])
    else if 0xE0 <= b[0] < 0xF0 then
      && |b| >= 3 && Continues(b[1]) && Continues(b[2])
      && (b[0] == 0xE0 ==> b[1] >= 0xA0) && (b[0] == 0xED ==> b[1] < 0xA0)
      && Utf8(b[3..])
    else if 0xF0 <= b[0] < 0xF5 then
      && |b| >= 4 && Continues(b[1]) && Continues(b[2]) && Continues(b[3])
      && (b[0] == 0xF0 ==> b[1] >= 0x90) && (b[0] == 0xF4 ==> b[1] < 0x90)
      && Utf8(b[4..])
    else false
  }

  predicate Hashable(v: Value) {
    match v
    case List(_) => false
    case Dict(_) => false
    case Tagged(_, content) => Hashable(content)
    case _ => true
  }

  /** What a dict key is compared by: True equals 1 and False equals 0. */
  function Identity(key: Value): Value {
    match key
    case Bool(flag) => Int(if flag then 1 else 0)
    case Tagged(tag, content) => Tagged(tag, Identity(content))
    case _ => key
  }

  ghost predicate DistinctKeys(entries: seq<Entry>) {
    forall i, j | 0 <= i < j < |entries| :: Identity(entries[i].key) != Identity(entries[j].key)
  }

  /** A value that Python can hold. */
  ghost predicate Possible(v: Value)
    decreases v
  {
    match v
    case Text(utf8) => Utf8(utf8)
    case List(items) => forall i | 0 <= i < |items| :: Possible(items[i])
    case Dict(entries) =>
      && DistinctKeys(entries)
      && forall i | 0 <= i < |entries| :: Hashable(entries[i].key) && PossibleEntry(entries[i])
    case Tagged(_, content) => Possible(content)
    case _ => true
  }

  ghost predicate PossibleEntry(e: Entry)
    decreases e
  {
    Possible(e.key) && Possible(e.value)
  }

  // ---- Heads ----

  function Head(major: nat, value: nat): Bytes
    requires major < 7 && value < U64_LIMIT
  {
    var prefix := major * 32;
    if value < 24 then [prefix + value]
    else if value < 0x100 then [prefix + 24] + BigEndian(value, 1)
    else if value < U16_LIMIT then [prefix + 25] + BigEndian(value, 2)
    else if value < U32_LIMIT then [prefix + 26] + BigEndian(value, 4)
    else [prefix + 27] + BigEndian(value, 8)
  }

  function LengthSize(additional: nat): nat {
    if additional == 24 then 1 else if additional == 25 then 2 else if additional == 26 then 4 else 8
  }

  /** The number a head carries, and what follows it. */
  function Length(additional: nat, b: Bytes): Result<(nat, Bytes), DecodeError> {
    if additional < 24 then Ok((additional, b))
    else if additional > 27 then Err(Indefinite)
    else
      var size := LengthSize(additional);
      if |b| < size then Err(Truncated) else Ok((FromBigEndian(b[..size]), b[size..]))
  }

  lemma BigEndianBack(value: nat, size: nat, rest: Bytes)
    requires size in {1, 2, 4, 8} && value < Pow256(size)
    ensures var b := BigEndian(value, size) + rest; FromBigEndian(b[..size]) == value && b[size..] == rest
  {
    BigEndianDecodes(value, size);
    assert (BigEndian(value, size) + rest)[..size] == BigEndian(value, size);
  }

  lemma HeadRoundTrip(major: nat, value: nat, rest: Bytes)
    requires major < 7 && value < U64_LIMIT
    ensures var b := Head(major, value) + rest;
            b != [] && b[0] / 32 == major && Length(b[0] % 32, b[1..]) == Ok((value, rest))
  {
    hide BigEndian, FromBigEndian, Pow256;
    PowValues();
    var b := Head(major, value) + rest;
    if value < 24 {
      assert b[1..] == rest;
    } else {
      var size := LengthSize(b[0] % 32);
      BigEndianBack(value, size, rest);
      assert b[1..] == BigEndian(value, size) + rest;
    }
  }

  /** The shortest form of a head, as a decoder sees it: the number does not fit the next smaller one. */
  predicate Shortest(additional: nat, value: nat) {
    || additional < 24
    || (additional == 24 && value >= 24)
    || (additional == 25 && value >= 0x100)
    || (additional == 26 && value >= U16_LIMIT)
    || (additional == 27 && value >= U32_LIMIT)
  }

  /** A head in any form is at least as long as the encoder's, and is the encoder's exactly when it is in
      shortest form. */
  lemma HeadIsShortest(b: Bytes, value: nat, rest: Bytes)
    requires b != [] && b[0] / 32 < 7 && Length(b[0] % 32, b[1..]) == Ok((value, rest))
    ensures value < U64_LIMIT
    ensures |b| >= |Head(b[0] / 32, value)| + |rest|
    ensures b == Head(b[0] / 32, value) + rest <==> Shortest(b[0] % 32, value)
    ensures |b| == |Head(b[0] / 32, value)| + |rest| <==> Shortest(b[0] % 32, value)
  {
    hide BigEndian, FromBigEndian, Pow256;
    PowValues();
    var major, additional := b[0] / 32, b[0] % 32;
    assert b[0] == major * 32 + additional;
    if additional < 24 {
      assert b == [b[0]] + b[1..];
    } else {
      var size := LengthSize(additional);
      BigEndianEncodes(b[1..][..size]);
      assert b == [b[0]] + b[1..][..size] + b[1..][size..];
    }
  }

  // ---- Sorting ----

  datatype Keyed<T> = Keyed(key: Bytes, item: T)

  predicate LexLess(a: Bytes, b: Bytes) {
    b != [] && (a == [] || a[0] < b[0] || (a[0] == b[0] && LexLess(a[1..], b[1..])))
  }

  /** Length first, then bytes. */
  predicate KeyLess(a: Bytes, b: Bytes) {
    |a| < |b| || (|a| == |b| && LexLess(a, b))
  }

  lemma {:induction false} LexTotal(a: Bytes, b: Bytes)
    ensures !(LexLess(a, b) && LexLess(b, a)) && !LexLess(a, a)
    ensures LexLess(a, b) || LexLess(b, a) || a == b
  {
    if a != [] {
      if b != [] {
        LexTotal(a[1..], b[1..]);
        assert a == [a[0]] + a[1..] && b == [b[0]] + b[1..];
      }
      LexTotal(a[1..], a[1..]);
    }
  }

  lemma {:induction false} LexTransitive(a: Bytes, b: Bytes, c: Bytes)
    requires LexLess(a, b) && LexLess(b, c)
    ensures LexLess(a, c)
  {
    if a != [] && a[0] == b[0] == c[0] { LexTransitive(a[1..], b[1..], c[1..]); }
  }

  lemma KeyOrder(a: Bytes, b: Bytes, c: Bytes)
    ensures !KeyLess(a, a) && !(KeyLess(a, b) && KeyLess(b, a)) && (KeyLess(a, b) || KeyLess(b, a) || a == b)
    ensures KeyLess(a, b) && KeyLess(b, c) ==> KeyLess(a, c)
  {
    LexTotal(a, b);
    if LexLess(a, b) && LexLess(b, c) { LexTransitive(a, b, c); }
  }

  /** The order as numbers: the shorter key first, and of equally long ones the one that is the smaller number. */
  predicate Precedes(a: Bytes, b: Bytes) {
    |a| < |b| || (|a| == |b| && FromBigEndian(a) < FromBigEndian(b))
  }

  /** The first byte weighs most. */
  lemma {:induction false} FirstByteWeighs(b: Bytes)
    requires b != []
    ensures FromBigEndian(b) == b[0] * Pow256(|b| - 1) + FromBigEndian(b[1..])
    ensures FromBigEndian(b[1..]) < Pow256(|b| - 1)
  {
    BigEndianEncodes(b[1..]);
    if |b| > 1 {
      var n := |b| - 1;
      FirstByteWeighs(b[..n]);
      assert b[..n][1..] == b[1..][..n - 1] && b[1..][n - 1] == b[n];
      assert FromBigEndian(b[1..]) == FromBigEndian(b[1..][..n - 1]) * 256 + b[n];
      assert FromBigEndian(b) == FromBigEndian(b[..n]) * 256 + b[n];
      Regroup(b[0], Pow256(n - 1), FromBigEndian(b[1..][..n - 1]), b[n]);
    } else {
      assert b[..0] == [] && b[1..] == [];
    }
  }

  lemma Regroup(x: nat, power: nat, low: nat, last: nat)
    ensures (x * power + low) * 256 + last == x * (256 * power) + (low * 256 + last)
  {
  }

  lemma Weighs(x: nat, y: nat, power: nat, a: nat, b: nat)
    requires a < power && b < power
    ensures x < y ==> x * power + a < y * power + b
  {
    if x < y { Multiples(x, y, power); }
  }

  lemma {:induction false} Multiples(x: nat, y: nat, power: nat)
    requires x < y
    ensures x * power + power <= y * power
    decreases y
  {
    assert y * power == (y - 1) * power + power;
    if x < y - 1 { Multiples(x, y - 1, power); }
  }

  lemma {:induction false} LexIsNumeric(a: Bytes, b: Bytes)
    requires |a| == |b|
    ensures LexLess(a, b) <==> FromBigEndian(a) < FromBigEndian(b)
  {
    if a != [] {
      LexIsNumeric(a[1..], b[1..]);
      FirstByteWeighs(a);
      FirstByteWeighs(b);
      Weighs(a[0], b[0], Pow256(|a| - 1), FromBigEndian(a[1..]), FromBigEndian(b[1..]));
      Weighs(b[0], a[0], Pow256(|a| - 1), FromBigEndian(b[1..]), FromBigEndian(a[1..]));
    }
  }

  /** Sorting by length and bytes is sorting by length and number. */
  lemma KeyLessMeans(a: Bytes, b: Bytes)
    ensures KeyLess(a, b) <==> Precedes(a, b)
  {
    if |a| == |b| { LexIsNumeric(a, b); }
  }

  function Insert<T>(x: Keyed<T>, s: seq<Keyed<T>>): (r: seq<Keyed<T>>)
    ensures |r| == |s| + 1
  {
    if s != [] && KeyLess(s[0].key, x.key) then [s[0]] + Insert(x, s[1..]) else [x] + s
  }

  /** The stable sort by key. */
  function Sort<T>(s: seq<Keyed<T>>): (r: seq<Keyed<T>>)
    ensures |r| == |s|
  {
    if s == [] then [] else Insert(s[0], Sort(s[1..]))
  }

  ghost predicate Increasing<T>(s: seq<Keyed<T>>) {
    forall i, j | 0 <= i < j < |s| :: KeyLess(s[i].key, s[j].key)
  }

  ghost predicate DistinctBytes<T>(s: seq<Keyed<T>>) {
    forall i, j | 0 <= i < j < |s| :: s[i].key != s[j].key
  }

  lemma {:induction false} InsertMembers<T>(x: Keyed<T>, s: seq<Keyed<T>>)
    ensures multiset(Insert(x, s)) == multiset(s) + multiset{x}
    ensures forall y | y in Insert(x, s) :: y == x || y in s
    ensures x in Insert(x, s) && forall y | y in s :: y in Insert(x, s)
  {
    if s != [] && KeyLess(s[0].key, x.key) {
      InsertMembers(x, s[1..]);
      assert s == [s[0]] + s[1..];
      assert forall y | y in s :: y == s[0] || y in s[1..];
    }
  }

  lemma {:induction false} SortMembers<T>(s: seq<Keyed<T>>)
    ensures multiset(Sort(s)) == multiset(s)
    ensures forall y | y in Sort(s) :: y in s
    ensures forall y | y in s :: y in Sort(s)
  {
    if s != [] {
      SortMembers(s[1..]);
      InsertMembers(s[0], Sort(s[1..]));
      assert s == [s[0]] + s[1..];
    }
  }

  lemma {:induction false} InsertIncreasing<T>(x: Keyed<T>, s: seq<Keyed<T>>)
    requires Increasing(s) && forall y | y in s :: y.key != x.key
    ensures Increasing(Insert(x, s))
  {
    var r := Insert(x, s);
    if s != [] {
      KeyOrder(s[0].key, x.key, x.key);
      if KeyLess(s[0].key, x.key) {
        InsertIncreasing(x, s[1..]);
        InsertMembers(x, s[1..]);
        Increases(s[0], Insert(x, s[1..]));
      } else {
        forall y | y in s ensures KeyLess(x.key, y.key) {
          if y != s[0] { KeyOrder(x.key, s[0].key, y.key); }
        }
        Increases(x, s);
      }
    }
  }

  lemma Increases<T>(x: Keyed<T>, s: seq<Keyed<T>>)
    requires Increasing(s) && forall y | y in s :: KeyLess(x.key, y.key)
    ensures Increasing([x] + s)
  {
    hide KeyLess;
    var r := [x] + s;
    forall i, j | 0 <= i < j < |r|
      ensures KeyLess(r[i].key, r[j].key)
    {
      assert r[j] == s[j - 1];
      if i > 0 { assert r[i] == s[i - 1]; } else { assert s[j - 1] in s; }
    }
  }

  lemma {:induction false} SortIncreasing<T>(s: seq<Keyed<T>>)
    requires DistinctBytes(s)
    ensures Increasing(Sort(s))
  {
    if s != [] {
      SortIncreasing(s[1..]);
      SortMembers(s[1..]);
      forall y | y in Sort(s[1..])
        ensures y.key != s[0].key
      {
        assert y in s[1..];
      }
      InsertIncreasing(s[0], Sort(s[1..]));
    }
  }

  lemma {:induction false} SortedStays<T>(s: seq<Keyed<T>>)
    requires Increasing(s)
    ensures Sort(s) == s
  {
    hide KeyLess;
    if s != [] {
      SortedStays(s[1..]);
      if |s| > 1 {
        assert KeyLess(s[0].key, s[1].key);
        KeyOrder(s[0].key, s[1].key, s[0].key);
      }
      assert s == [s[0]] + s[1..];
    }
  }

  /** Two increasing lists with the same members are the same list. */
  lemma {:induction false} IncreasingUnique<T>(s: seq<Keyed<T>>, t: seq<Keyed<T>>)
    requires |s| == |t| && Increasing(s) && Increasing(t) && (forall y | y in s :: y in t)
             && (forall y | y in t :: y in s)
    ensures s == t
  {
    hide KeyLess;
    if s != [] {
      assert s[0] in t;
      var j :| 0 <= j < |t| && t[j] == s[0];
      assert t[0] in s;
      var i :| 0 <= i < |s| && s[i] == t[0];
      KeyOrder(s[0].key, t[0].key, s[0].key);
      assert s[0] == t[0];
      forall y
        ensures y in s[1..] <==> y in t[1..]
      {
        TailMember(s, y);
        TailMember(t, y);
      }
      IncreasingUnique(s[1..], t[1..]);
      assert s == [s[0]] + s[1..] && t == [t[0]] + t[1..];
    }
  }

  lemma TailMember<T>(s: seq<Keyed<T>>, y: Keyed<T>)
    requires s != [] && Increasing(s)
    ensures y in s[1..] <==> y in s && y != s[0]
  {
    KeyOrder(s[0].key, s[0].key, s[0].key);
    assert s == [s[0]] + s[1..];
    assert forall j | 0 < j < |s| :: s[j] != s[0];
  }

  // ---- The encoder ----

  /** Whether encoding succeeds: no tagged items inside, numbers and lengths within 64 bits. */
  predicate Encodable(v: Value)
    decreases v
  {
    match v
    case Bool(_) => true
    case Int(number) => number < U64_LIMIT && -1 - number < U64_LIMIT
    case Blob(bytes) => |bytes| < U64_LIMIT
    case Text(utf8) => |utf8| < U64_LIMIT
    case List(items) => |items| < U64_LIMIT && forall i | 0 <= i < |items| :: Encodable(items[i])
    case Dict(entries) => |entries| < U64_LIMIT && forall i | 0 <= i < |entries| :: EncodableEntry(entries[i])
    case Tagged(_, _) => false
  }

  predicate EncodableEntry(e: Entry)
    decreases e
  {
    Encodable(e.key) && Encodable(e.value)
  }

  function Print(v: Value): Bytes
    requires Encodable(v)
    decreases v
  {
    match v
    case Bool(flag) => if flag then [0xF5] else [0xF4]
    case Int(number) => if number >= 0 then Head(0, number) else Head(1, -1 - number)
    case Blob(bytes) => Head(2, |bytes|) + bytes
    case Text(utf8) => Head(3, |utf8|) + utf8
    case List(items) => Head(4, |items|) + PrintAll(items)
    case Dict(entries) => Head(5, |entries|) + Joined(Sort(PrintPairs(entries)))
  }

  function PrintAll(items: seq<Value>): Bytes
    requires forall i | 0 <= i < |items| :: Encodable(items[i])
    decreases items
  {
    if items == [] then [] else Print(items[0]) + PrintAll(items[1..])
  }

  function PrintPairs(entries: seq<Entry>): (r: seq<Keyed<Bytes>>)
    requires forall i | 0 <= i < |entries| :: EncodableEntry(entries[i])
    ensures |r| == |entries|
    decreases entries
  {
    if entries == [] then [] else [PrintPair(entries[0])] + PrintPairs(entries[1..])
  }

  function PrintPair(e: Entry): Keyed<Bytes>
    requires EncodableEntry(e)
    decreases e
  {
    Keyed(Print(e.key), Print(e.value))
  }

  function Joined(pairs: seq<Keyed<Bytes>>): Bytes {
    if pairs == [] then [] else pairs[0].key + pairs[0].item + Joined(pairs[1..])
  }

  /** Encoding, with nothing for the exceptions. */
  function Encode(v: Value): Option<Bytes> {
    if Encodable(v) then Some(Print(v)) else None
  }

  // ---- The decoder ----

  function Item(b: Bytes): (r: Result<(Value, Bytes), DecodeError>)
    ensures r.Ok? ==> |r.value.1| < |b|
    decreases |b|, 0
  {
    if b == [] then Err(Truncated)
    else
      var major, additional := b[0] / 32, b[0] % 32;
      if major == 7 then
        if additional == 20 then Ok((Bool(false), b[1..]))
        else if additional == 21 then Ok((Bool(true), b[1..]))
        else Err(UnsupportedSimple)
      else
        var head :- Length(additional, b[1..]);
        var (length, rest) := head;
        if major == 0 then Ok((Int(length), rest))
        else if major == 1 then Ok((Int(-1 - length), rest))
        else if major <= 3 then
          if |rest| < length then Err(Truncated)
          else if major == 2 then Ok((Blob(rest[..length]), rest[length..]))
          else if !Utf8(rest[..length]) then Err(InvalidText)
          else Ok((Text(rest[..length]), rest[length..]))
        else if major == 4 then
          var items :- Items(length, rest);
          Ok((List(items.0), items.1))
        else if major == 5 then
          var pairs :- Pairs(length, rest);
          Ok((Dict(Build(pairs.0)), pairs.1))
        else
          var content :- Item(rest);
          Ok((Tagged(length, content.0), content.1))
  }

  function Items(n: nat, b: Bytes): (r: Result<(seq<Value>, Bytes), DecodeError>)
    ensures r.Ok? ==> |r.value.1| <= |b| && |r.value.0| == n
    decreases |b|, 1
  {
    if n == 0 then Ok(([], b))
    else
      var first :- Item(b);
      var others :- Items(n - 1, first.1);
      Ok(([first.0] + others.0, others.1))
  }

  /** Keys and values in the order they come; a list or dict as a key fails once its value was read. */
  function Pairs(n: nat, b: Bytes): (r: Result<(seq<Entry>, Bytes), DecodeError>)
    ensures r.Ok? ==> |r.value.1| <= |b| && |r.value.0| == n
    decreases |b|, 1
  {
    if n == 0 then Ok(([], b))
    else
      var key :- Item(b);
      var value :- Item(key.1);
      if !Hashable(key.0) then Err(UnhashableKey)
      else
        var others :- Pairs(n - 1, value.1);
        Ok(([Entry(key.0, value.0)] + others.0, others.1))
  }

  /** Where a key is, or the length of the dict. */
  function Find(entries: seq<Entry>, key: Value): (i: nat)
    ensures i <= |entries|
    ensures i < |entries| ==> Identity(entries[i].key) == Identity(key)
    ensures forall k | 0 <= k < i :: Identity(entries[k].key) != Identity(key)
  {
    if entries == [] then 0
    else if Identity(entries[0].key) == Identity(key) then 0
    else 1 + Find(entries[1..], key)
  }

  /** Assigning to a key that is there keeps the old key and its place. */
  function Put(entries: seq<Entry>, e: Entry): seq<Entry> {
    var i := Find(entries, e.key);
    if i < |entries| then entries[i := Entry(entries[i].key, e.value)] else entries + [e]
  }

  function Build(pairs: seq<Entry>): seq<Entry> {
    if pairs == [] then [] else Put(Build(pairs[..|pairs| - 1]), pairs[|pairs| - 1])
  }

  function Decode(b: Bytes): Result<Value, DecodeError> {
    var item :- Item(b);
    if item.1 != [] then Err(Trailing) else Ok(item.0)
  }

  /** The test on the signed payload: it decodes, and encoding the result gives it back. */
  predicate Accepts(payload: Bytes) {
    Decode(payload).Ok? && Encode(Decode(payload).value) == Some(payload)
  }

  lemma {:induction false} BuildDistinct(pairs: seq<Entry>)
    requires DistinctKeys(pairs)
    ensures Build(pairs) == pairs
  {
    if pairs != [] {
      var n := |pairs| - 1;
      BuildDistinct(pairs[..n]);
      assert pairs == pairs[..n] + [pairs[n]];
    }
  }

  lemma {:induction false} BuildKeys(pairs: seq<Entry>)
    ensures DistinctKeys(Build(pairs))
    ensures forall e | e in Build(pairs) ::
              exists i, j :: 0 <= i < |pairs| && 0 <= j < |pairs| && e == Entry(pairs[i].key, pairs[j].value)
    ensures |Build(pairs)| <= |pairs|
  {
    if pairs != [] {
      var n := |pairs| - 1;
      BuildKeys(pairs[..n]);
      var before := Build(pairs[..n]);
      var p := Find(before, pairs[n].key);
      forall e | e in Build(pairs)
        ensures exists i, j :: 0 <= i < |pairs| && 0 <= j < |pairs| && e == Entry(pairs[i].key, pairs[j].value)
      {
        if e in before {
          var i, j :| 0 <= i < n && 0 <= j < n && e == Entry(pairs[..n][i].key, pairs[..n][j].value);
          assert e == Entry(pairs[i].key, pairs[j].value);
        } else if p < |before| {
          assert before[p] in before;
          var i, j :| 0 <= i < n && 0 <= j < n && before[p] == Entry(pairs[..n][i].key, pairs[..n][j].value);
          assert e == Entry(pairs[i].key, pairs[n].value);
        } else {
          assert e == Entry(pairs[n].key, pairs[n].value);
        }
      }
    }
  }

  // ---- The round trip ----

  /** The value as decoding gives it back: dict entries in the order of their encoded keys. */
  function Normal(v: Value): Value
    requires Encodable(v)
    decreases v
  {
    match v
    case List(items) => List(NormalAll(items))
    case Dict(entries) => Dict(Arranged(entries))
    case _ => v
  }

  function NormalAll(items: seq<Value>): (r: seq<Value>)
    requires forall i | 0 <= i < |items| :: Encodable(items[i])
    ensures |r| == |items|
    decreases items
  {
    if items == [] then [] else [Normal(items[0])] + NormalAll(items[1..])
  }

  function NormalEntries(entries: seq<Entry>): (r: seq<Keyed<Entry>>)
    requires forall i | 0 <= i < |entries| :: EncodableEntry(entries[i])
    ensures |r| == |entries|
    decreases entries, 0
  {
    if entries == [] then [] else [NormalEntry(entries[0])] + NormalEntries(entries[1..])
  }

  function NormalEntry(e: Entry): Keyed<Entry>
    requires EncodableEntry(e)
    decreases e
  {
    Keyed(Print(e.key), Entry(Normal(e.key), Normal(e.value)))
  }

  function Strip(pairs: seq<Keyed<Entry>>): (r: seq<Entry>)
    ensures |r| == |pairs|
    ensures forall i | 0 <= i < |pairs| :: r[i] == pairs[i].item
  {
    if pairs == [] then [] else [pairs[0].item] + Strip(pairs[1..])
  }

  function Arranged(entries: seq<Entry>): seq<Entry>
    requires forall i | 0 <= i < |entries| :: EncodableEntry(entries[i])
    decreases entries, 1
  {
    Strip(Sort(NormalEntries(entries)))
  }

  /** Whatever follows, `bytes` is read as `v`. */
  ghost predicate Reads(bytes: Bytes, v: Value) {
    forall rest: Bytes :: Item(bytes + rest) == Ok((v, rest))
  }

  lemma ReadsOne(bytes: Bytes, v: Value, w: Value)
    requires Reads(bytes, v) && Reads(bytes, w)
    ensures v == w
  {
    assert Item(bytes + []) == Ok((v, []));
  }

  /** A printed pair and the entry it is read as. */
  ghost predicate Link(x: Keyed<Bytes>, y: Keyed<Entry>) {
    x.key == y.key && Reads(x.key, y.item.key) && Reads(x.item, y.item.value) && Hashable(y.item.key)
  }

  ghost predicate Linked(a: seq<Keyed<Bytes>>, b: seq<Keyed<Entry>>) {
    |a| == |b| && forall i | 0 <= i < |a| :: Link(a[i], b[i])
  }

  lemma {:induction false} InsertLinked(x: Keyed<Bytes>, y: Keyed<Entry>, a: seq<Keyed<Bytes>>, b: seq<Keyed<Entry>>)
    requires Link(x, y) && Linked(a, b)
    ensures Linked(Insert(x, a), Insert(y, b))
    decreases |a|
  {
    hide Reads, KeyLess;
    if a != [] {
      assert Link(a[0], b[0]);
      assert Linked(a[1..], b[1..]);
      InsertLinked(x, y, a[1..], b[1..]);
    }
  }

  lemma {:induction false} SortLinked(a: seq<Keyed<Bytes>>, b: seq<Keyed<Entry>>)
    requires Linked(a, b)
    ensures Linked(Sort(a), Sort(b))
    decreases |a|
  {
    hide Link;
    if a != [] {
      assert Linked(a[1..], b[1..]);
      SortLinked(a[1..], b[1..]);
      InsertLinked(a[0], b[0], Sort(a[1..]), Sort(b[1..]));
    }
  }

  lemma {:induction false} PairsRead(a: seq<Keyed<Bytes>>, b: seq<Keyed<Entry>>, rest: Bytes)
    requires Linked(a, b)
    ensures Pairs(|a|, Joined(a) + rest) == Ok((Strip(b), rest))
    decreases |a|
  {
    hide Item, Hashable;
    if a == [] {
      assert Joined(a) + rest == rest;
    } else {
      assert Link(a[0], b[0]);
      assert Linked(a[1..], b[1..]);
      PairsRead(a[1..], b[1..], rest);
      var more := Joined(a[1..]) + rest;
      assert Joined(a) + rest == a[0].key + (a[0].item + more);
      assert Item(a[0].key + (a[0].item + more)) == Ok((b[0].item.key, a[0].item + more));
      assert Item(a[0].item + more) == Ok((b[0].item.value, more));
      assert b[0].item == Entry(b[0].item.key, b[0].item.value);
    }
  }

  predicate Scalar(v: Value) {
    v.Bool? || v.Int? || v.Blob? || v.Text?
  }

  /** The keys an encodable dict can have are scalars, and normal as they are. */
  lemma ScalarKey(v: Value)
    requires Encodable(v) && Hashable(v)
    ensures Scalar(v) && Normal(v) == v
  {
  }

  lemma {:induction false} NormalKeys(entries: seq<Entry>)
    requires forall i | 0 <= i < |entries| :: EncodableEntry(entries[i]) && Hashable(entries[i].key)
    ensures forall i | 0 <= i < |entries| ::
              && NormalEntries(entries)[i].item == Entry(entries[i].key, Normal(entries[i].value))
              && NormalEntries(entries)[i].key == Print(entries[i].key)
    decreases |entries|
  {
    hide Print, Normal, Hashable, Encodable;
    if entries != [] {
      NormalKeys(entries[1..]);
      ScalarKey(entries[0].key);
      assert forall i | 0 < i < |entries| :: entries[i] == entries[1..][i - 1];
    }
  }

  ghost predicate Apart(b: seq<Keyed<Entry>>) {
    forall i, j | 0 <= i < j < |b| :: Identity(b[i].item.key) != Identity(b[j].item.key)
  }

  lemma {:induction false} InsertApart(x: Keyed<Entry>, s: seq<Keyed<Entry>>)
    requires Apart(s) && forall y | y in s :: Identity(y.item.key) != Identity(x.item.key)
    ensures Apart(Insert(x, s))
  {
    hide KeyLess, Identity;
    if s != [] && KeyLess(s[0].key, x.key) {
      assert Apart(s[1..]);
      InsertApart(x, s[1..]);
      InsertMembers(x, s[1..]);
      var r := Insert(x, s[1..]);
      forall j | 0 <= j < |r|
        ensures Identity(s[0].item.key) != Identity(r[j].item.key)
      {
        assert r[j] in r;
        if r[j] != x {
          var k :| 0 <= k < |s[1..]| && s[1..][k] == r[j];
          assert s[k + 1] == r[j];
        }
      }
    }
  }

  /** Sorting keeps the keys apart. */
  lemma {:induction false} SortApart(s: seq<Keyed<Entry>>)
    requires Apart(s)
    ensures Apart(Sort(s))
  {
    hide Identity;
    if s != [] {
      assert Apart(s[1..]);
      SortApart(s[1..]);
      SortMembers(s[1..]);
      forall y | y in Sort(s[1..])
        ensures Identity(y.item.key) != Identity(s[0].item.key)
      {
        assert y in s[1..];
        var k :| 0 <= k < |s[1..]| && s[1..][k] == y;
        assert s[k + 1] == y;
      }
      InsertApart(s[0], Sort(s[1..]));
    }
  }

  lemma ArrangedDistinct(entries: seq<Entry>)
    requires DistinctKeys(entries)
    requires forall i | 0 <= i < |entries| :: EncodableEntry(entries[i]) && Hashable(entries[i].key)
    ensures DistinctKeys(Arranged(entries)) && Build(Arranged(entries)) == Arranged(entries)
  {
    hide Identity, Print, Normal, EncodableEntry, Hashable, NormalEntries, Sort, Build;
    NormalKeys(entries);
    SortApart(NormalEntries(entries));
    BuildDistinct(Arranged(entries));
  }

  lemma DictPossible(entries: seq<Entry>)
    requires Possible(Dict(entries)) && Encodable(Dict(entries))
    ensures DistinctKeys(entries) && |entries| < U64_LIMIT
    ensures forall i | 0 <= i < |entries| ::
              EncodableEntry(entries[i]) && Hashable(entries[i].key) && PossibleEntry(entries[i])
  {
  }

  lemma {:induction false} RoundTrip(v: Value)
    requires Possible(v) && Encodable(v)
    ensures Reads(Print(v), Normal(v))
    decreases v, 1
  {
    forall rest: Bytes
      ensures Item(Print(v) + rest) == Ok((Normal(v), rest))
    {
      RoundTripBefore(v, rest);
    }
  }

  lemma ScalarRoundTrip(v: Value, rest: Bytes)
    requires Possible(v) && Encodable(v) && Scalar(v)
    ensures Item(Print(v) + rest) == Ok((v, rest))
  {
    hide Head, Length, Utf8;
    match v
    case Bool(_) =>
      assert (Print(v) + rest)[1..] == rest;
    case Int(number) =>
      if number >= 0 { HeadRoundTrip(0, number, rest); } else { HeadRoundTrip(1, -1 - number, rest); }
    case Blob(bytes) =>
      HeadRoundTrip(2, |bytes|, bytes + rest);
      assert Print(v) + rest == Head(2, |bytes|) + (bytes + rest);
      assert (bytes + rest)[..|bytes|] == bytes && (bytes + rest)[|bytes|..] == rest;
    case Text(utf8) =>
      HeadRoundTrip(3, |utf8|, utf8 + rest);
      assert Print(v) + rest == Head(3, |utf8|) + (utf8 + rest);
      assert (utf8 + rest)[..|utf8|] == utf8 && (utf8 + rest)[|utf8|..] == rest;
  }

  lemma {:induction false} RoundTripBefore(v: Value, rest: Bytes)
    requires Possible(v) && Encodable(v)
    ensures Item(Print(v) + rest) == Ok((Normal(v), rest))
    decreases v, 0
  {
    hide Head, Length, Utf8, Reads;
    match v
    case List(items) =>
      HeadRoundTrip(4, |items|, PrintAll(items) + rest);
      assert Print(v) + rest == Head(4, |items|) + (PrintAll(items) + rest);
      ItemsRoundTrip(items, rest);
    case Dict(entries) =>
      DictRoundTrip(entries, rest);
    case _ =>
      ScalarRoundTrip(v, rest);
  }

  lemma {:induction false} ItemsRoundTrip(items: seq<Value>, rest: Bytes)
    requires forall i | 0 <= i < |items| :: Possible(items[i]) && Encodable(items[i])
    ensures Items(|items|, PrintAll(items) + rest) == Ok((NormalAll(items), rest))
    decreases items, 0
  {
    hide Item, Print, Normal, Possible, Encodable;
    if items == [] {
      assert PrintAll(items) + rest == rest;
    } else {
      var more := PrintAll(items[1..]) + rest;
      ItemsRoundTrip(items[1..], rest);
      RoundTrip(items[0]);
      assert PrintAll(items) + rest == Print(items[0]) + more;
      assert Item(Print(items[0]) + more) == Ok((Normal(items[0]), more));
    }
  }

  lemma {:induction false} EntriesLinked(entries: seq<Entry>)
    requires forall i | 0 <= i < |entries| ::
             EncodableEntry(entries[i]) && PossibleEntry(entries[i]) && Hashable(entries[i].key)
    ensures Linked(PrintPairs(entries), NormalEntries(entries))
    decreases entries, 0
  {
    hide Item, Print, Normal, Possible, Encodable, Reads, Hashable;
    if entries != [] {
      EntriesLinked(entries[1..]);
      EntryLinked(entries[0]);
    }
  }

  lemma {:induction false} EntryLinked(e: Entry)
    requires EncodableEntry(e) && PossibleEntry(e) && Hashable(e.key)
    ensures Link(PrintPair(e), NormalEntry(e))
    decreases e, 0
  {
    RoundTrip(e.key);
    RoundTrip(e.value);
    ScalarKey(e.key);
  }

  lemma {:induction false} DictRoundTrip(entries: seq<Entry>, rest: Bytes)
    requires Possible(Dict(entries)) && Encodable(Dict(entries))
    ensures Item(Print(Dict(entries)) + rest) == Ok((Normal(Dict(entries)), rest))
    decreases entries, 1
  {
    hide Item, Head, Length, Possible, Link, Hashable, Encodable, EncodableEntry, PossibleEntry, DistinctKeys;
    DictPossible(entries);
    var a := PrintPairs(entries);
    var b := NormalEntries(entries);
    EntriesLinked(entries);
    SortLinked(a, b);
    PairsRead(Sort(a), Sort(b), rest);
    assert Print(Dict(entries)) + rest == Head(5, |entries|) + (Joined(Sort(a)) + rest);
    ArrangedDistinct(entries);
    DictItem(|entries|, Joined(Sort(a)) + rest, Strip(Sort(b)), rest);
  }

  lemma DictItem(n: nat, b: Bytes, pairs: seq<Entry>, rest: Bytes)
    requires n < U64_LIMIT && Pairs(n, b) == Ok((pairs, rest)) && Build(pairs) == pairs
    ensures Item(Head(5, n) + b) == Ok((Dict(pairs), rest))
  {
    hide Head, Length;
    HeadRoundTrip(5, n, b);
  }
}
