/** What the re-encoding test of the manifest tool means for the bytes, and what the encoder does to values
    that are the same up to the insertion order of their dicts. */
module CborDeterminism {
  import opened Prelude
  import opened Cbor

  // ---- Deterministic encodings, read off the bytes ----

  /** The first byte of a number, byte string, text or boolean. */
  predicate ScalarBytes(key: Bytes) {
    key != [] && (key[0] / 32 < 4 || key[0] / 32 == 7)
  }

  /** Two encoded keys that Python takes for one: 0 and False, 1 and True. */
  predicate Clash(a: Bytes, b: Bytes) {
    (a == [0x00] && b == [0xF4]) || (a == [0x01] && b == [0xF5])
  }

  predicate Clashes(keys: seq<Bytes>, key: Bytes) {
    exists k | k in keys :: Clash(k, key)
  }

  /** A scanner for one deterministic item: no encoder, no values. Every head is in its shortest form, keys
      are scalars in strictly increasing order, shorter ones first, and do not clash; there are no tags.
      It gives what follows the item. */
  function Scan(b: Bytes): (r: Option<Bytes>)
    ensures r.Some? ==> |r.value| < |b|
    decreases |b|, 0
  {
    if b == [] then None
    else
      var major, additional := b[0] / 32, b[0] % 32;
      if major == 7 then if additional == 20 || additional == 21 then Some(b[1..]) else None
      else
        match Length(additional, b[1..])
        case Err(_) => None
        case Ok((n, rest)) =>
          if !Shortest(additional, n) then None
          else if major <= 1 then Some(rest)
          else if major <= 3 then
            if |rest| < n || (major == 3 && !Utf8(rest[..n])) then None else Some(rest[n..])
          else if major == 4 then ScanItems(n, rest)
          else if major == 5 then ScanPairs(n, rest, [])
          else None
  }

  function ScanItems(n: nat, b: Bytes): (r: Option<Bytes>)
    ensures r.Some? ==> |r.value| <= |b|
    decreases |b|, 1
  {
    if n == 0 then Some(b)
    else
      match Scan(b)
      case None => None
      case Some(rest) => ScanItems(n - 1, rest)
  }

  function ScanPairs(n: nat, b: Bytes, keys: seq<Bytes>): (r: Option<Bytes>)
    ensures r.Some? ==> |r.value| <= |b|
    decreases |b|, 1
  {
    if n == 0 then Some(b)
    else
      match Scan(b)
      case None => None
      case Some(behind) =>
        var key := b[..|b| - |behind|];
        if !ScalarBytes(key) || (keys != [] && !Precedes(keys[|keys| - 1], key)) || Clashes(keys, key) then None
        else
          match Scan(behind)
          case None => None
          case Some(rest) => ScanPairs(n - 1, rest, keys + [key])
  }

  // ---- The encoder's output is deterministic ----

  ghost predicate ScansAs(bytes: Bytes) {
    forall rest: Bytes :: Scan(bytes + rest) == Some(rest)
  }

  ghost predicate ScanReady(x: Keyed<Bytes>) {
    ScansAs(x.key) && ScansAs(x.item) && ScalarBytes(x.key)
  }

  ghost predicate NoClash(a: seq<Keyed<Bytes>>) {
    forall x, y | x in a && y in a :: !Clash(x.key, y.key)
  }

  lemma {:induction false} PairsScan(a: seq<Keyed<Bytes>>, keys: seq<Bytes>, rest: Bytes)
    requires Increasing(a) && NoClash(a) && forall x | x in a :: ScanReady(x)
    requires forall k, x | k in keys && x in a :: !Clash(k, x.key)
    requires keys != [] && a != [] ==> Precedes(keys[|keys| - 1], a[0].key)
    ensures ScanPairs(|a|, Joined(a) + rest, keys) == Some(rest)
    decreases |a|
  {
    hide Scan, KeyLess, Precedes, Clash, ScanReady, NoClash;
    if a == [] {
      assert Joined(a) + rest == rest;
    } else {
      var x := a[0];
      assert x in a && ScanReady(x);
      var more := Joined(a[1..]) + rest;
      PairScans(x, more);
      assert Joined(a) + rest == x.key + (x.item + more);
      TailReady(a, keys);
      PairsScan(a[1..], keys + [x.key], rest);
    }
  }

  lemma PairScans(x: Keyed<Bytes>, more: Bytes)
    requires ScanReady(x)
    ensures var b := x.key + (x.item + more);
            && Scan(b) == Some(x.item + more) && Scan(x.item + more) == Some(more)
            && b != [] && b[..|b| - |x.item + more|] == x.key && ScalarBytes(x.key)
  {
    hide Scan;
    assert Scan(x.key + (x.item + more)) == Some(x.item + more);
  }

  lemma TailReady(a: seq<Keyed<Bytes>>, keys: seq<Bytes>)
    requires a != [] && Increasing(a) && NoClash(a)
    requires forall k, x | k in keys && x in a :: !Clash(k, x.key)
    ensures Increasing(a[1..]) && NoClash(a[1..]) && !Clashes(keys, a[0].key)
    ensures forall x | x in a[1..] :: x in a
    ensures forall k, x | k in keys + [a[0].key] && x in a[1..] :: !Clash(k, x.key)
    ensures a[1..] != [] ==> Precedes(a[0].key, a[1..][0].key)
  {
    hide KeyLess, Precedes, Clash;
    assert a[0] in a;
    if a[1..] != [] { KeyLessMeans(a[0].key, a[1].key); }
    assert forall x | x in a[1..] :: x in a;
  }

  lemma ScalarScans(v: Value, rest: Bytes)
    requires Possible(v) && Encodable(v) && Scalar(v)
    ensures Scan(Print(v) + rest) == Some(rest)
    ensures ScalarBytes(Print(v))
  {
    hide Head, Length, Utf8, Shortest;
    match v
    case Bool(_) =>
      assert (Print(v) + rest)[1..] == rest;
    case Int(number) =>
      if number >= 0 { HeadScans(0, number, rest); } else { HeadScans(1, -1 - number, rest); }
    case Blob(bytes) =>
      HeadScans(2, |bytes|, bytes + rest);
      assert Print(v) + rest == Head(2, |bytes|) + (bytes + rest);
      assert (bytes + rest)[..|bytes|] == bytes && (bytes + rest)[|bytes|..] == rest;
      HeadFirst(2, |bytes|, bytes);
    case Text(utf8) =>
      HeadScans(3, |utf8|, utf8 + rest);
      assert Print(v) + rest == Head(3, |utf8|) + (utf8 + rest);
      assert (utf8 + rest)[..|utf8|] == utf8 && (utf8 + rest)[|utf8|..] == rest;
      HeadFirst(3, |utf8|, utf8);
  }

  lemma HeadScans(major: nat, value: nat, rest: Bytes)
    requires major < 7 && value < U64_LIMIT
    ensures var b := Head(major, value) + rest;
            b != [] && b[0] / 32 == major && Length(b[0] % 32, b[1..]) == Ok((value, rest))
              && Shortest(b[0] % 32, value)
    ensures Head(major, value) != [] && Head(major, value)[0] / 32 == major
  {
    hide Length, Shortest, Head;
    HeadRoundTrip(major, value, rest);
    HeadIsShortest(Head(major, value) + rest, value, rest);
    HeadFirst(major, value, rest);
  }

  lemma HeadFirst(major: nat, value: nat, rest: Bytes)
    requires major < 7 && value < U64_LIMIT
    ensures Head(major, value) != [] && Head(major, value)[0] / 32 == major
    ensures (Head(major, value) + rest)[0] == Head(major, value)[0]
  {
  }

  lemma {:induction false} EncodeScans(v: Value)
    requires Possible(v) && Encodable(v)
    ensures ScansAs(Print(v))
    decreases v, 1
  {
    forall rest: Bytes
      ensures Scan(Print(v) + rest) == Some(rest)
    {
      EncodeScansBefore(v, rest);
    }
  }

  lemma {:induction false} EncodeScansBefore(v: Value, rest: Bytes)
    requires Possible(v) && Encodable(v)
    ensures Scan(Print(v) + rest) == Some(rest)
    decreases v, 0
  {
    hide Head, Length, Utf8, Shortest;
    match v
    case List(items) =>
      HeadScans(4, |items|, PrintAll(items) + rest);
      assert Print(v) + rest == Head(4, |items|) + (PrintAll(items) + rest);
      ItemsScan(items, rest);
    case Dict(entries) =>
      DictScans(entries, rest);
    case _ =>
      ScalarScans(v, rest);
  }

  lemma {:induction false} ItemsScan(items: seq<Value>, rest: Bytes)
    requires forall i | 0 <= i < |items| :: Possible(items[i]) && Encodable(items[i])
    ensures ScanItems(|items|, PrintAll(items) + rest) == Some(rest)
    decreases items, 0
  {
    hide Scan, Print, Possible, Encodable;
    if items == [] {
      assert PrintAll(items) + rest == rest;
    } else {
      var more := PrintAll(items[1..]) + rest;
      ItemsScan(items[1..], rest);
      EncodeScans(items[0]);
      assert PrintAll(items) + rest == Print(items[0]) + more;
      assert Scan(Print(items[0]) + more) == Some(more);
    }
  }

  lemma {:induction false} EntriesScan(entries: seq<Entry>)
    requires forall i | 0 <= i < |entries| ::
             EncodableEntry(entries[i]) && PossibleEntry(entries[i]) && Hashable(entries[i].key)
    ensures forall i | 0 <= i < |entries| ::
              PrintPairs(entries)[i] == PrintPair(entries[i]) && ScanReady(PrintPairs(entries)[i])
    decreases entries, 0
  {
    hide Print, Possible, Encodable, ScansAs, Hashable, ScalarBytes;
    if entries != [] {
      EntriesScan(entries[1..]);
      EntryScans(entries[0]);
      assert forall i | 0 < i < |entries| :: entries[i] == entries[1..][i - 1];
    }
  }

  lemma {:induction false} EntryScans(e: Entry)
    requires EncodableEntry(e) && PossibleEntry(e) && Hashable(e.key)
    ensures ScanReady(PrintPair(e))
    decreases e, 0
  {
    EncodeScans(e.key);
    EncodeScans(e.value);
    ScalarKey(e.key);
    ScalarScans(e.key, []);
  }

  /** Scalars that Python tells apart have different encodings, which do not clash. */
  lemma KeysPrintApart(a: Value, b: Value)
    requires Possible(a) && Encodable(a) && Scalar(a) && Possible(b) && Encodable(b) && Scalar(b)
    requires Identity(a) != Identity(b)
    ensures Print(a) != Print(b) && !Clash(Print(a), Print(b))
  {
    hide Print, Possible, Encodable, Utf8;
    ScalarRoundTrip(a, []);
    ScalarRoundTrip(b, []);
    assert Print(a) + [] == Print(a) && Print(b) + [] == Print(b);
    assert [0x00][1..] == [] && [0x01][1..] == [] && [0xF4][1..] == [] && [0xF5][1..] == [];
  }

  lemma PairsApart(entries: seq<Entry>)
    requires DistinctKeys(entries)
    requires forall i | 0 <= i < |entries| ::
             EncodableEntry(entries[i]) && PossibleEntry(entries[i]) && Hashable(entries[i].key)
    ensures DistinctBytes(PrintPairs(entries)) && NoClash(PrintPairs(entries))
  {
    hide Print, Possible, Encodable, ScanReady, Hashable, Identity, Clash;
    PrintPairsAt(entries);
    var a := PrintPairs(entries);
    forall i, j | 0 <= i < |a| && 0 <= j < |a|
      ensures i < j ==> a[i].key != a[j].key
      ensures !Clash(a[i].key, a[j].key)
    {
      ScalarKey(entries[i].key);
      ScalarKey(entries[j].key);
      if i != j {
        KeysPrintApart(entries[i].key, entries[j].key);
      } else {
        NoSelfClash(a[i].key);
      }
    }
  }

  lemma NoSelfClash(a: Bytes)
    ensures !Clash(a, a)
  {
  }

  lemma {:induction false} DictScans(entries: seq<Entry>, rest: Bytes)
    requires Possible(Dict(entries)) && Encodable(Dict(entries))
    ensures Scan(Print(Dict(entries)) + rest) == Some(rest)
    decreases entries, 1
  {
    hide Head, Length, Possible, ScanReady, Hashable, Encodable, EncodableEntry, PossibleEntry, DistinctKeys, Shortest,
         NoClash;
    DictPossible(entries);
    var a := PrintPairs(entries);
    EntriesScan(entries);
    PairsApart(entries);
    SortIncreasing(a);
    SortMembers(a);
    SortNoClash(a);
    PairsScan(Sort(a), [], rest);
    HeadScans(5, |entries|, Joined(Sort(a)) + rest);
    assert Print(Dict(entries)) + rest == Head(5, |entries|) + (Joined(Sort(a)) + rest);
  }

  /** Every dict is written as a head and its entries, each once, the keys increasing in length and, among equally
      long ones, as numbers. */
  lemma DictKeysIncrease(entries: seq<Entry>)
    requires Possible(Dict(entries)) && Encodable(Dict(entries))
    ensures var written := Sort(PrintPairs(entries));
            && Print(Dict(entries)) == Head(5, |entries|) + Joined(written)
            && multiset(written) == multiset(PrintPairs(entries))
            && forall i, j | 0 <= i < j < |written| :: Precedes(written[i].key, written[j].key)
  {
    hide Head, Possible, Hashable, Encodable, EncodableEntry, PossibleEntry, DistinctKeys, NoClash, KeyLess, Precedes;
    DictPossible(entries);
    PairsApart(entries);
    var written := Sort(PrintPairs(entries));
    SortIncreasing(PrintPairs(entries));
    SortMembers(PrintPairs(entries));
    forall i, j | 0 <= i < j < |written|
      ensures Precedes(written[i].key, written[j].key)
    {
      KeyLessMeans(written[i].key, written[j].key);
    }
  }

  /** Key 1 is written before key 4. */
  lemma AlgorithmBeforeKeyId(kid: Bytes)
    requires |kid| < 24
    ensures var header := Dict([Entry(Int(4), Blob(kid)), Entry(Int(1), Int(-8))]);
            Encodable(header) && Print(header) == [0xA2, 0x01, 0x27, 0x04, 0x40 + |kid|] + kid
  {
    hide Sort, Insert, Joined, PrintPairs;
    var first, second := Entry(Int(4), Blob(kid)), Entry(Int(1), Int(-8));
    assert Encodable(Int(4)) && Encodable(Blob(kid)) && Encodable(Int(1)) && Encodable(Int(-8));
    assert EncodableEntry(first) && EncodableEntry(second);
    assert Print(Int(4)) == [0x04] && Print(Int(1)) == [0x01] && Print(Int(-8)) == [0x27];
    assert Print(Blob(kid)) == [0x40 + |kid|] + kid;
    var a, b := PrintPair(first), PrintPair(second);
    PairPrints(first, second);
    TwoSorted(a, b);
    assert Head(5, 2) == [0xA2];
  }

  lemma PairPrints(first: Entry, second: Entry)
    requires EncodableEntry(first) && EncodableEntry(second)
    ensures PrintPairs([first, second]) == [PrintPair(first), PrintPair(second)]
  {
    hide PrintPair, EncodableEntry;
    assert [first, second][1..] == [second] && [second][1..] == [];
    assert PrintPairs([second]) == [PrintPair(second)];
  }

  lemma TwoSorted(a: Keyed<Bytes>, b: Keyed<Bytes>)
    requires |a.key| == |b.key| == 1 && b.key[0] < a.key[0]
    ensures Joined(Sort([a, b])) == b.key + b.item + (a.key + a.item)
  {
    assert [a, b][1..] == [b] && [b][1..] == [] && Sort([b]) == [b];
    assert Sort([a, b]) == Insert(a, [b]) == [b, a];
    assert [b, a][1..] == [a] && [a][1..] == [];
    assert Joined([a]) == a.key + a.item;
  }

  lemma SortNoClash(a: seq<Keyed<Bytes>>)
    requires NoClash(a)
    ensures NoClash(Sort(a))
  {
    hide Clash;
    SortMembers(a);
  }

  // ---- What the scanner takes, the encoder would have written ----

  /** The item at the start of `b` is the encoder's own output for the value it decodes to. */
  ghost predicate Written(b: Bytes, rest: Bytes) {
    && Item(b).Ok?
    && var (v, behind) := Item(b).value;
       && behind == rest
       && Possible(v) && Encodable(v)
       && b == Print(v) + rest
  }

  lemma {:induction false} ScanSound(b: Bytes)
    requires Scan(b).Some?
    ensures Written(b, Scan(b).value)
    decreases |b|, 2
  {
    hide Head, Length, Utf8, Shortest;
    var major, additional := b[0] / 32, b[0] % 32;
    if major == 7 {
      assert b == [b[0]] + b[1..];
    } else {
      var (n, rest) := Length(additional, b[1..]).value;
      HeadIsShortest(b, n, rest);
      LengthShrinks(additional, b[1..]);
      if major == 4 {
        ScanItemsSound(n, rest);
        var items := Items(n, rest).value.0;
        assert b == Head(4, n) + PrintAll(items) + Scan(b).value;
      } else if major == 5 {
        ScanDictSound(b, n, rest);
      } else if major == 2 || major == 3 {
        assert rest == rest[..n] + rest[n..];
        assert b == Head(major, n) + rest[..n] + rest[n..];
      }
    }
  }

  lemma LengthShrinks(additional: nat, b: Bytes)
    requires Length(additional, b).Ok?
    ensures |Length(additional, b).value.1| <= |b|
  {
  }

  lemma {:induction false} ScanItemsSound(n: nat, b: Bytes)
    requires ScanItems(n, b).Some?
    ensures Items(n, b).Ok? && Items(n, b).value.1 == ScanItems(n, b).value
    ensures var items := Items(n, b).value.0;
            && (forall i | 0 <= i < |items| :: Possible(items[i]) && Encodable(items[i]))
            && b == PrintAll(items) + ScanItems(n, b).value
    decreases |b|, 3
  {
    hide Scan, Item, Print, Possible, Encodable;
    if n > 0 {
      ScanSound(b);
      var rest := Scan(b).value;
      ScanItemsSound(n - 1, rest);
      var others := Items(n - 1, rest).value.0;
      var items := Items(n, b).value.0;
      assert items[0] == Item(b).value.0 && items[1..] == others;
      assert b == Print(items[0]) + (PrintAll(others) + ScanItems(n, b).value);
      assert b == Print(items[0]) + PrintAll(others) + ScanItems(n, b).value;
    } else {
      assert b == PrintAll([]) + b;
    }
  }

  ghost predicate Ordered(a: seq<Keyed<Bytes>>) {
    Increasing(a) && forall i, j | 0 <= i < j < |a| :: !Clash(a[i].key, a[j].key)
  }

  /** The keys of `a` may follow `keys`. */
  ghost predicate Follows(keys: seq<Bytes>, a: seq<Keyed<Bytes>>) {
    && (keys != [] && a != [] ==> Precedes(keys[|keys| - 1], a[0].key))
    && forall k, i | k in keys && 0 <= i < |a| :: !Clash(k, a[i].key)
  }

  lemma OrderedCons(keys: seq<Bytes>, x: Keyed<Bytes>, a: seq<Keyed<Bytes>>)
    requires Ordered(a) && Follows(keys + [x.key], a)
    requires keys != [] ==> Precedes(keys[|keys| - 1], x.key)
    requires !Clashes(keys, x.key)
    ensures Ordered([x] + a) && Follows(keys, [x] + a)
  {
    hide KeyLess, Precedes, Clash;
    assert (keys + [x.key])[|keys|] == x.key;
    if a != [] { KeyLessMeans(x.key, a[0].key); }
    forall y | y in a
      ensures KeyLess(x.key, y.key)
    {
      var j :| 0 <= j < |a| && a[j] == y;
      if j > 0 { KeyOrder(x.key, a[0].key, y.key); }
    }
    Increases(x, a);
    var r := [x] + a;
    forall i, j | 0 <= i < j < |r|
      ensures !Clash(r[i].key, r[j].key)
    {
      assert r[j] == a[j - 1];
      if i > 0 { assert r[i] == a[i - 1]; } else { assert x.key in keys + [x.key]; }
    }
    forall k, i | k in keys && 0 <= i < |r|
      ensures !Clash(k, r[i].key)
    {
      if i > 0 { assert k in keys + [x.key] && r[i] == a[i - 1]; }
    }
  }

  lemma ScalarByBytes(v: Value)
    requires Encodable(v) && ScalarBytes(Print(v))
    ensures Scalar(v) && Hashable(v)
  {
    match v
    case List(items) => HeadFirst(4, |items|, PrintAll(items));
    case Dict(entries) => HeadFirst(5, |entries|, Joined(Sort(PrintPairs(entries))));
    case _ =>
  }

  /** Every entry can be read, hashed and written. */
  ghost predicate GoodEntries(pairs: seq<Entry>) {
    forall i | 0 <= i < |pairs| :: PossibleEntry(pairs[i]) && EncodableEntry(pairs[i]) && Hashable(pairs[i].key)
  }

  lemma {:induction false} ScanPairsSound(n: nat, b: Bytes, keys: seq<Bytes>)
    requires ScanPairs(n, b, keys).Some?
    ensures Pairs(n, b).Ok? && Pairs(n, b).value.1 == ScanPairs(n, b, keys).value
    ensures var pairs := Pairs(n, b).value.0;
            && GoodEntries(pairs)
            && b == Joined(PrintPairs(pairs)) + ScanPairs(n, b, keys).value
            && Ordered(PrintPairs(pairs)) && Follows(keys, PrintPairs(pairs))
    decreases |b|, 3
  {
    hide Scan, Item, Print, Possible, Encodable, KeyLess, Precedes, Clash, Hashable, ScalarBytes, Ordered, Follows;
    if n > 0 {
      ScanSound(b);
      var behind := Scan(b).value;
      ScanSound(behind);
      var rest := Scan(behind).value;
      var e := Entry(Item(b).value.0, Item(behind).value.0);
      var key := b[..|b| - |behind|];
      assert key == Print(e.key);
      ScalarByBytes(e.key);
      ScanPairsSound(n - 1, rest, keys + [key]);
      var others := Pairs(n - 1, rest).value.0;
      var a := PrintPairs(others);
      OrderedCons(keys, PrintPair(e), a);
      assert ([e] + others)[1..] == others;
      assert Pairs(n, b).value.0 == [e] + others;
      assert PrintPairs([e] + others) == [PrintPair(e)] + a;
      JoinedCons(PrintPair(e), a, ScanPairs(n, b, keys).value);
      assert b == Print(e.key) + (Print(e.value) + (Joined(a) + ScanPairs(n, b, keys).value));
    } else {
      NothingFollows(keys);
      assert b == [] + b;
    }
  }

  lemma JoinedCons(x: Keyed<Bytes>, a: seq<Keyed<Bytes>>, rest: Bytes)
    ensures Joined([x] + a) + rest == x.key + (x.item + (Joined(a) + rest))
  {
    assert ([x] + a)[1..] == a;
  }

  lemma NothingFollows(keys: seq<Bytes>)
    ensures Ordered([]) && Follows(keys, []) && PrintPairs([]) == [] && Joined([]) == []
  {
  }

  /** Scalars whose encodings are in order and do not clash are different keys for Python. */
  lemma ScalarsApart(a: Value, b: Value)
    requires Encodable(a) && Encodable(b) && Scalar(a) && Scalar(b)
    requires KeyLess(Print(a), Print(b)) && !Clash(Print(a), Print(b))
    ensures Identity(a) != Identity(b)
  {
    KeyOrder(Print(a), Print(b), Print(a));
  }

  lemma {:induction false} PrintPairsAt(pairs: seq<Entry>)
    requires forall i | 0 <= i < |pairs| :: EncodableEntry(pairs[i])
    ensures forall i | 0 <= i < |pairs| :: PrintPairs(pairs)[i] == PrintPair(pairs[i])
  {
    hide PrintPair, EncodableEntry;
    if pairs != [] {
      PrintPairsAt(pairs[1..]);
      assert forall i | 0 < i < |pairs| :: pairs[i] == pairs[1..][i - 1];
    }
  }

  lemma OrderedDistinct(pairs: seq<Entry>)
    requires GoodEntries(pairs) && Ordered(PrintPairs(pairs))
    ensures DistinctKeys(pairs)
  {
    hide Print, KeyLess, Clash, Identity, Encodable, Possible, Hashable;
    PrintPairsAt(pairs);
    forall i, j | 0 <= i < j < |pairs|
      ensures Identity(pairs[i].key) != Identity(pairs[j].key)
    {
      assert EncodableEntry(pairs[i]) && EncodableEntry(pairs[j]);
      ScalarKey(pairs[i].key);
      ScalarKey(pairs[j].key);
      ScalarsApart(pairs[i].key, pairs[j].key);
    }
  }

  lemma {:induction false} ScanDictSound(b: Bytes, n: nat, rest: Bytes)
    requires b != [] && b[0] / 32 == 5 && Length(b[0] % 32, b[1..]) == Ok((n, rest)) && |rest| < |b|
    requires n < U64_LIMIT && b == Head(5, n) + rest && ScanPairs(n, rest, []).Some?
    ensures Written(b, ScanPairs(n, rest, []).value)
    decreases |b|, 1
  {
    hide Head, Length, Identity, Scan, ScanPairs, DistinctKeys, Hashable, Clash, Joined, PrintPairs, Pairs, Build;
    ScanPairsSound(n, rest, []);
    var pairs := Pairs(n, rest).value.0;
    OrderedDistinct(pairs);
    BuildDistinct(pairs);
    SortedStays(PrintPairs(pairs));
    assert b == Head(5, n) + Joined(PrintPairs(pairs)) + ScanPairs(n, rest, []).value;
  }

  // ---- The test means determinism ----

  lemma {:induction false} ItemPossible(b: Bytes)
    requires Item(b).Ok?
    ensures Possible(Item(b).value.0)
    decreases |b|, 0
  {
    hide Utf8, Identity, DistinctKeys;
    var major := b[0] / 32;
    if major < 7 {
      var (n, rest) := Length(b[0] % 32, b[1..]).value;
      LengthShrinks(b[0] % 32, b[1..]);
      if major == 4 {
        ItemsPossible(n, rest);
      } else if major == 5 {
        PairsPossible(n, rest);
        var pairs := Pairs(n, rest).value.0;
        BuildKeys(pairs);
        var entries := Build(pairs);
        forall i | 0 <= i < |entries|
          ensures Hashable(entries[i].key) && PossibleEntry(entries[i])
        {
          assert entries[i] in entries;
          var k, m :| 0 <= k < |pairs| && 0 <= m < |pairs| && entries[i] == Entry(pairs[k].key, pairs[m].value);
          assert PossibleEntry(pairs[k]) && PossibleEntry(pairs[m]);
        }
      } else if major == 6 {
        ItemPossible(rest);
      }
    }
  }

  lemma {:induction false} ItemsPossible(n: nat, b: Bytes)
    requires Items(n, b).Ok?
    ensures forall i | 0 <= i < n :: Possible(Items(n, b).value.0[i])
    decreases |b|, 1
  {
    hide Item, Possible;
    if n > 0 {
      ItemPossible(b);
      ItemsPossible(n - 1, Item(b).value.1);
    }
  }

  lemma {:induction false} PairsPossible(n: nat, b: Bytes)
    requires Pairs(n, b).Ok?
    ensures forall i | 0 <= i < n :: Hashable(Pairs(n, b).value.0[i].key) && PossibleEntry(Pairs(n, b).value.0[i])
    decreases |b|, 1
  {
    hide Item, Possible, Hashable;
    if n > 0 {
      ItemPossible(b);
      var rest := Item(b).value.1;
      ItemPossible(rest);
      PairsPossible(n - 1, Item(rest).value.1);
    }
  }

  /** The re-encoding test accepts exactly the payloads the scanner takes whole: shortest heads, strictly
      increasing keys and no repeated ones at every depth, no tags -- and no dict with both 0 and False, or
      both 1 and True, which is more than the RFC asks for. */
  lemma AcceptedIffDeterministic(payload: Bytes)
    ensures Accepts(payload) <==> Scan(payload) == Some([])
  {
    hide Item, Scan, Print, Encodable, Possible;
    if Accepts(payload) {
      var v := Decode(payload).value;
      ItemPossible(payload);
      EncodeScans(v);
      assert Print(v) + [] == payload;
      assert Scan(Print(v) + []) == Some([]);
    }
    if Scan(payload) == Some([]) {
      ScanSound(payload);
      var v := Item(payload).value.0;
      assert Print(v) + [] == Print(v);
    }
  }

  lemma FoldedPairs()
    ensures Pairs(2, [0x00, 0x00, 0xF4, 0x01]) == Ok(([Entry(Int(0), Int(0)), Entry(Bool(false), Int(1))], []))
  {
    var b: Bytes := [0x00, 0x00, 0xF4, 0x01];
    var first, second := Entry(Int(0), Int(0)), Entry(Bool(false), Int(1));
    assert b[1..] == [0x00, 0xF4, 0x01] && b[1..][1..] == [0xF4, 0x01] && [0xF4, 0x01][1..] == [0x01]
           && [0x01][1..] == [];
    assert Pairs(0, []) == Ok(([], [])) && [second] + [] == [second];
    assert Pairs(1, [0xF4, 0x01]) == Ok(([second], []));
    assert [first] + [second] == [first, second];
  }

  lemma FoldedBuild()
    ensures Build([Entry(Int(0), Int(0)), Entry(Bool(false), Int(1))]) == [Entry(Int(0), Int(1))]
  {
    var first, second := Entry(Int(0), Int(0)), Entry(Bool(false), Int(1));
    assert [first, second][..1] == [first] && [first][..0] == [] && Build([]) == [];
    assert Build([first]) == [first];
  }

  /** The RFC has nothing against a dict with both 0 and False; the decoder folds the two keys into one
      entry, and the test refuses the payload. */
  lemma ZeroAndFalseRefused()
    ensures Decode([0xA2, 0x00, 0x00, 0xF4, 0x01]) == Ok(Dict([Entry(Int(0), Int(1))]))
    ensures !Accepts([0xA2, 0x00, 0x00, 0xF4, 0x01])
  {
    hide Pairs, Build, Scan;
    var b: Bytes := [0xA2, 0x00, 0x00, 0xF4, 0x01];
    assert b[1..] == [0x00, 0x00, 0xF4, 0x01];
    FoldedPairs();
    FoldedBuild();
    var v := Dict([Entry(Int(0), Int(1))]);
    assert Item(b) == Ok((v, []));
    if Encodable(v) { HeadFirst(5, 1, Joined(Sort(PrintPairs(v.entries)))); }
    assert Head(5, 1)[0] == 0xA1;
  }

  /** Whatever the encoder writes passes the test, and decodes to the same value in normal order. */
  lemma EncoderPasses(v: Value)
    requires Possible(v) && Encodable(v)
    ensures Accepts(Print(v)) && Decode(Print(v)) == Ok(Normal(v))
    ensures Possible(Normal(v)) && Encodable(Normal(v)) && Print(Normal(v)) == Print(v)
  {
    hide Item, Scan, Print, Encodable, Possible, Normal;
    EncodeScans(v);
    RoundTrip(v);
    assert Print(v) + [] == Print(v);
    assert Scan(Print(v) + []) == Some([]);
    assert Item(Print(v) + []) == Ok((Normal(v), []));
    ScanSound(Print(v));
    assert Print(Normal(v)) + [] == Print(Normal(v));
  }

  // ---- Values that are the same up to insertion order ----

  ghost predicate Same(v: Value, w: Value)
    decreases v
  {
    match v
    case List(items) => w.List? && |items| == |w.items| && forall i | 0 <= i < |items| :: Same(items[i], w.items[i])
    case Dict(entries) => w.Dict? && SameEntries(entries, w.entries)
    case _ => v == w
  }

  ghost predicate SameEntry(e: Entry, f: Entry)
    decreases e, 0
  {
    e.key == f.key && Same(e.value, f.value)
  }

  ghost predicate HasSame(x: Entry, f: seq<Entry>)
    decreases x, 1
  {
    exists j | 0 <= j < |f| :: SameEntry(x, f[j])
  }

  ghost predicate IsSame(e: seq<Entry>, y: Entry)
    decreases e, 0
  {
    exists i | 0 <= i < |e| :: SameEntry(e[i], y)
  }

  /** The same entries, in any order. */
  ghost predicate SameEntries(e: seq<Entry>, f: seq<Entry>)
    decreases e, 1
  {
    && |e| == |f|
    && (forall i | 0 <= i < |e| :: HasSame(e[i], f))
    && (forall j | 0 <= j < |f| :: IsSame(e, f[j]))
  }

  lemma {:induction false} SamePrints(v: Value, w: Value)
    requires Possible(v) && Encodable(v) && Possible(w) && Encodable(w) && Same(v, w)
    ensures Print(v) == Print(w)
    decreases v
  {
    match v
    case List(items) =>
      ItemsSamePrint(items, w.items);
    case Dict(entries) =>
      DictPossible(entries);
      DictPossible(w.entries);
      DictsSamePrint(entries, w.entries);
    case _ =>
  }

  lemma {:induction false} ItemsSamePrint(a: seq<Value>, b: seq<Value>)
    requires |a| == |b|
    requires forall i | 0 <= i < |a| ::
               Possible(a[i]) && Encodable(a[i]) && Possible(b[i]) && Encodable(b[i]) && Same(a[i], b[i])
    ensures PrintAll(a) == PrintAll(b)
    decreases a
  {
    hide Print, Possible, Encodable, Same;
    if a != [] {
      SamePrints(a[0], b[0]);
      ItemsSamePrint(a[1..], b[1..]);
    }
  }

  lemma {:induction false} EntrySamePrint(e: Entry, f: Entry)
    requires PossibleEntry(e) && EncodableEntry(e) && PossibleEntry(f) && EncodableEntry(f) && SameEntry(e, f)
    ensures PrintPair(e) == PrintPair(f)
    decreases e
  {
    SamePrints(e.value, f.value);
  }

  lemma {:induction false} DictsSamePrint(e: seq<Entry>, f: seq<Entry>)
    requires GoodEntries(e) && GoodEntries(f) && DistinctKeys(e) && DistinctKeys(f) && SameEntries(e, f)
    ensures Sort(PrintPairs(e)) == Sort(PrintPairs(f))
    decreases e, 1
  {
    hide Print, PossibleEntry, EncodableEntry, SameEntry, Hashable, DistinctKeys, NoClash, Sort;
    SameMembers(e, f);
    PairsApart(e);
    PairsApart(f);
    SameMembersSortSame(PrintPairs(e), PrintPairs(f));
  }

  lemma {:induction false} SameMembers(e: seq<Entry>, f: seq<Entry>)
    requires GoodEntries(e) && GoodEntries(f) && SameEntries(e, f)
    ensures forall i | 0 <= i < |e| :: PrintPairs(e)[i] in PrintPairs(f)
    ensures forall j | 0 <= j < |f| :: PrintPairs(f)[j] in PrintPairs(e)
    decreases e, 0
  {
    hide Print, PossibleEntry, EncodableEntry, SameEntry, Hashable, PrintPairs;
    PrintPairsAt(e);
    PrintPairsAt(f);
    forall i | 0 <= i < |e|
      ensures PrintPairs(e)[i] in PrintPairs(f)
    {
      assert HasSame(e[i], f);
      var j :| 0 <= j < |f| && SameEntry(e[i], f[j]);
      EntrySamePrint(e[i], f[j]);
      assert PrintPairs(f)[j] == PrintPairs(e)[i];
    }
    forall j | 0 <= j < |f|
      ensures PrintPairs(f)[j] in PrintPairs(e)
    {
      assert IsSame(e, f[j]);
      var i :| 0 <= i < |e| && SameEntry(e[i], f[j]);
      EntrySamePrint(e[i], f[j]);
      assert PrintPairs(e)[i] == PrintPairs(f)[j];
    }
  }

  lemma SameMembersSortSame<T>(a: seq<Keyed<T>>, b: seq<Keyed<T>>)
    requires |a| == |b| && DistinctBytes(a) && DistinctBytes(b)
    requires (forall i | 0 <= i < |a| :: a[i] in b) && (forall j | 0 <= j < |b| :: b[j] in a)
    ensures Sort(a) == Sort(b)
  {
    SortIncreasing(a);
    SortIncreasing(b);
    SortMembers(a);
    SortMembers(b);
    IncreasingUnique(Sort(a), Sort(b));
  }

  lemma {:induction false} NormalSame(v: Value, w: Value)
    requires Possible(v) && Encodable(v) && Possible(w) && Encodable(w) && Normal(v) == Normal(w)
    ensures Same(v, w)
    decreases v
  {
    match v
    case List(items) =>
      ItemsNormalSame(items, w.items);
    case Dict(entries) =>
      DictNormalSame(entries, w);
    case _ =>
  }

  lemma {:induction false} DictNormalSame(e: seq<Entry>, w: Value)
    requires Possible(Dict(e)) && Encodable(Dict(e)) && Possible(w) && Encodable(w) && Normal(Dict(e)) == Normal(w)
    ensures w.Dict? && SameEntries(e, w.entries)
    decreases e, 1
  {
    hide PossibleEntry, EncodableEntry, Hashable, DistinctKeys, SameEntries, Sort, NormalEntries;
    DictPossible(e);
    DictPossible(w.entries);
    EntriesNormalSame(e, w.entries);
  }

  lemma {:induction false} ItemsNormalSame(a: seq<Value>, b: seq<Value>)
    requires forall i | 0 <= i < |a| :: Possible(a[i]) && Encodable(a[i])
    requires forall i | 0 <= i < |b| :: Possible(b[i]) && Encodable(b[i])
    requires NormalAll(a) == NormalAll(b)
    ensures |a| == |b| && forall i | 0 <= i < |a| :: Same(a[i], b[i])
    decreases a
  {
    hide Normal, Possible, Encodable, Same;
    if a != [] {
      assert NormalAll(a)[0] == Normal(a[0]) && NormalAll(b)[0] == Normal(b[0]);
      assert NormalAll(a)[1..] == NormalAll(a[1..]) && NormalAll(b)[1..] == NormalAll(b[1..]);
      NormalSame(a[0], b[0]);
      ItemsNormalSame(a[1..], b[1..]);
    }
  }

  lemma {:induction false} EntryNormalSame(e: Entry, f: Entry)
    requires PossibleEntry(e) && EncodableEntry(e) && PossibleEntry(f) && EncodableEntry(f)
    requires e.key == f.key && Normal(e.value) == Normal(f.value)
    ensures SameEntry(e, f)
    decreases e
  {
    NormalSame(e.value, f.value);
  }

  /** An entry has its counterpart in any dict arranged the same way. */
  lemma Counterpart(e: seq<Entry>, f: seq<Entry>, i: nat) returns (j: nat)
    requires GoodEntries(e) && GoodEntries(f) && Arranged(e) == Arranged(f) && i < |e|
    ensures |e| == |f| && j < |f| && e[i].key == f[j].key && Normal(e[i].value) == Normal(f[j].value)
  {
    hide Print, Normal, Hashable, PossibleEntry, EncodableEntry, NormalEntries, KeyLess;
    NormalKeys(e);
    NormalKeys(f);
    var a, b := NormalEntries(e), NormalEntries(f);
    SortMembers(a);
    SortMembers(b);
    assert a[i] in Sort(a);
    var k :| 0 <= k < |a| && Sort(a)[k] == a[i];
    assert Strip(Sort(a))[k] == a[i].item;
    assert |Strip(Sort(a))| == |Strip(Sort(b))|;
    assert Sort(b)[k] in b;
    j :| 0 <= j < |b| && b[j] == Sort(b)[k];
  }

  lemma {:induction false} EntriesNormalSame(e: seq<Entry>, f: seq<Entry>)
    requires GoodEntries(e) && GoodEntries(f) && Arranged(e) == Arranged(f)
    ensures SameEntries(e, f)
    decreases e, 0
  {
    hide Normal, Hashable, PossibleEntry, EncodableEntry, Arranged, SameEntry;
    ArrangedLength(e);
    ArrangedLength(f);
    forall i | 0 <= i < |e|
      ensures HasSame(e[i], f)
    {
      var j := Counterpart(e, f, i);
      EntryNormalSame(e[i], f[j]);
    }
    forall j | 0 <= j < |f|
      ensures IsSame(e, f[j])
    {
      var i := Counterpart(f, e, j);
      EntryNormalSame(e[i], f[j]);
    }
  }

  lemma ArrangedLength(e: seq<Entry>)
    requires forall i | 0 <= i < |e| :: EncodableEntry(e[i])
    ensures |Arranged(e)| == |e|
  {
  }

  /** Two values have the same encoding exactly when they are the same up to the insertion order of their
      dicts, at every depth. */
  lemma SameIffSameEncoding(v: Value, w: Value)
    requires Possible(v) && Encodable(v) && Possible(w) && Encodable(w)
    ensures Same(v, w) <==> Print(v) == Print(w)
  {
    hide Print, Same, Possible, Encodable, Normal, Reads;
    if Same(v, w) {
      SamePrints(v, w);
    }
    if Print(v) == Print(w) {
      RoundTrip(v);
      RoundTrip(w);
      ReadsOne(Print(v), Normal(v), Normal(w));
      NormalSame(v, w);
    }
  }

  /** decode(encode(v)) is v, as Python compares dicts. */
  lemma DecodeEncode(v: Value)
    requires Possible(v) && Encodable(v)
    ensures Encode(v).Some? && Decode(Encode(v).value).Ok? && Same(v, Decode(Encode(v).value).value)
  {
    hide Print, Same, Possible, Encodable, Normal, Item;
    EncoderPasses(v);
    SameIffSameEncoding(v, Normal(v));
  }

  /** No encoding is a proper prefix of another. */
  lemma PrefixFree(v: Value, w: Value)
    requires Possible(v) && Encodable(v) && Possible(w) && Encodable(w)
    requires Print(v) <= Print(w)
    ensures Print(v) == Print(w)
  {
    hide Print, Possible, Encodable, Normal, Item;
    RoundTrip(v);
    RoundTrip(w);
    var rest := Print(w)[|Print(v)|..];
    assert Print(w) == Print(v) + rest && Print(w) + [] == Print(w);
    assert Item(Print(w) + []) == Ok((Normal(w), []));
    assert Item(Print(v) + rest) == Ok((Normal(v), rest));
  }

  // ---- Keys and simple values ----

  /** What is inside the tags. */
  function Untagged(v: Value): Value
    decreases v
  {
    if v.Tagged? then Untagged(v.content) else v
  }

  /** A key is refused exactly when there is a list or a dict inside its tags. */
  lemma {:induction false} HashableIff(v: Value)
    ensures Hashable(v) <==> !Untagged(v).List? && !Untagged(v).Dict?
    decreases v
  {
    if v.Tagged? { HashableIff(v.content); }
  }

  /** Python's equality of keys: a boolean is the number 0 or 1, tagged items are equal when tag and content are, and
      other values when they are the same. */
  predicate SameKey(a: Value, b: Value)
    decreases a
  {
    if a.Tagged? || b.Tagged? then a.Tagged? && b.Tagged? && a.tag == b.tag && SameKey(a.content, b.content)
    else if a.Bool? then (b.Bool? && a.flag == b.flag) || (b.Int? && b.number == if a.flag then 1 else 0)
    else if b.Bool? then a.Int? && a.number == if b.flag then 1 else 0
    else a == b
  }

  lemma {:induction false} SameKeyIff(a: Value, b: Value)
    ensures Identity(a) == Identity(b) <==> SameKey(a, b)
    decreases a
  {
    if a.Tagged? && b.Tagged? { SameKeyIff(a.content, b.content); }
  }

  /** Of the simple values the decoder knows false and true, and no other; a tag wraps what follows it. */
  lemma SimpleOrTagged(b: Bytes)
    requires b != [] && b[0] >= 0xC0
    ensures b[0] >= 0xE0 ==>
              Item(b) == if b[0] == 0xF4 then Ok((Bool(false), b[1..]))
                         else if b[0] == 0xF5 then Ok((Bool(true), b[1..])) else Err(UnsupportedSimple)
    ensures b[0] < 0xE0 && Item(b).Ok? ==> Item(b).value.0.Tagged?
  {
  }

  /** A list behind a tag is no key: {1([]): 0}. */
  lemma TaggedListIsNoKey()
    ensures Decode([0xA1, 0xC1, 0x80, 0x00]) == Err(UnhashableKey)
  {
    hide Hashable;
    var b: Bytes := [0xA1, 0xC1, 0x80, 0x00];
    assert b[1..] == [0xC1, 0x80, 0x00] && b[1..][1..] == [0x80, 0x00] && [0x80, 0x00][1..] == [0x00];
    assert Items(0, [0x00]) == Ok(([], [0x00]));
    assert Item([0x80, 0x00]) == Ok((List([]), [0x00]));
    assert Item([0xC1, 0x80, 0x00]) == Ok((Tagged(1, List([])), [0x00]));
    assert [0x00][1..] == [];
    assert Item([0x00]) == Ok((Int(0), []));
    HashableIff(Tagged(1, List([])));
    assert Pairs(1, b[1..]) == Err(UnhashableKey);
  }
}
