/** Reassembly of fragmented packets on the server. `PushOne` says what one fragment does to the set of
    assemblies; `FragmentReassembler` does it in place and keeps a running memory count. */
module Reassembly {
  import opened Prelude
  import opened Sums

  const MAX_REASSEMBLIES: nat := 64
  const MAX_REASSEMBLY_MEMORY: nat := 8 * 1024 * 1024
  const REASSEMBLY_TIMEOUT: nat := 3_000_000_000

  datatype FragmentError =
    | Truncated | InvalidLength | ExceedsPacket | LimitReached | TotalChanged | Conflicting | Overlapping |
      MemoryReached

  datatype Fragment = Fragment(packetId: nat, totalLen: nat, offset: nat, data: Bytes) {
    predicate Valid() {
      packetId < U32_LIMIT && totalLen < U16_LIMIT && |data| > 0 && offset + |data| <= totalLen
    }
  }

  function Encode(f: Fragment): Bytes {
    BigEndian(f.packetId, 4) + BigEndian(f.totalLen, 2) + BigEndian(f.offset, 2) + BigEndian(|f.data|, 2) + f.data
  }

  function Parse(body: Bytes): Result<Fragment, FragmentError> {
    if |body| < 10 then Err(Truncated)
    else
      var totalLen := FromBigEndian(body[4..6]);
      var offset := FromBigEndian(body[6..8]);
      var fragmentLen := FromBigEndian(body[8..10]);
      if totalLen == 0 || fragmentLen == 0 || |body| != 10 + fragmentLen then Err(InvalidLength)
      else if offset + fragmentLen > totalLen then Err(ExceedsPacket)
      else Ok(Fragment(FromBigEndian(body[0..4]), totalLen, offset, body[10..]))
  }

  lemma FragmentLayout(f: Fragment)
    ensures var b := Encode(f);
            && |b| == 10 + |f.data|
            && b[0..4] == BigEndian(f.packetId, 4) && b[4..6] == BigEndian(f.totalLen, 2)
            && b[6..8] == BigEndian(f.offset, 2) && b[8..10] == BigEndian(|f.data|, 2)
            && b[10..] == f.data
  {
    hide BigEndian;
  }

  lemma FragmentRoundTrip(f: Fragment)
    requires f.Valid()
    ensures Parse(Encode(f)) == Ok(f)
  {
    hide BigEndian, FromBigEndian, Encode;
    FragmentLayout(f);
    IntegersDecode(f.packetId);
    IntegersDecode(f.totalLen);
    IntegersDecode(f.offset);
    IntegersDecode(|f.data|);
  }

  /** A body parses only when it is the encoding of a valid fragment. */
  lemma ParsedIsValid(body: Bytes)
    requires Parse(body).Ok?
    ensures Parse(body).value.Valid() && Encode(Parse(body).value) == body
  {
    hide BigEndian, FromBigEndian, Pow256;
    PowValues();
    BigEndianEncodes(body[0..4]);
    BigEndianEncodes(body[4..6]);
    BigEndianEncodes(body[6..8]);
    BigEndianEncodes(body[8..10]);
    assert body == body[0..4] + body[4..6] + body[6..8] + body[8..10] + body[10..];
  }

  // ---- Fragments as intervals ----

  type Pieces = map<nat, Bytes>

  ghost function Lengths(m: Pieces): map<nat, nat> {
    map o | o in m :: |m[o]|
  }

  ghost function Total(m: Pieces): nat {
    Sum(Lengths(m))
  }

  predicate Meets(start: nat, end: nat, otherStart: nat, otherEnd: nat) {
    start < otherEnd && otherStart < end
  }

  /** The pieces are not empty, lie in [lo, hi) and do not overlap. */
  ghost predicate Disjoint(m: Pieces, lo: nat, hi: nat) {
    && (forall o | o in m :: |m[o]| > 0 && lo <= o && o + |m[o]| <= hi)
    && (forall o, q | o in m && q in m && o != q :: !Meets(o, o + |m[o]|, q, q + |m[q]|))
  }

  lemma TotalAdd(m: Pieces, offset: nat, data: Bytes)
    requires offset !in m
    ensures Total(m[offset := data]) == Total(m) + |data|
  {
    hide Sum;
    SumAdd(Lengths(m), offset, |data|);
    assert Lengths(m[offset := data]) == Lengths(m)[offset := |data|];
  }

  lemma TotalRemove(m: Pieces, offset: nat)
    requires offset in m
    ensures Total(m) == |m[offset]| + Total(m - {offset})
    ensures |m - {offset}| < |m| && (m - {offset}).Keys == m.Keys - {offset}
  {
    hide Sum;
    TotalAdd(m - {offset}, offset, m[offset]);
    RemoveThenPut(m, offset);
    RemoveShrinks(m, offset);
  }

  /** The pieces behind the first one start where it ends, or later. */
  lemma AfterFirst(m: Pieces, lo: nat, hi: nat)
    requires m.Keys != {} && Disjoint(m, lo, hi)
    ensures var first: nat := MinKey(m.Keys); Disjoint(m - {first}, first + |m[first]|, hi)
  {
    hide MinKey, Meets;
    var first: nat := LeastKey(m);
    var rest := m - {first};
    forall o | o in rest
      ensures rest[o] == m[o] && first + |m[first]| <= o
    {
      FirstEnds(m, lo, hi, first, o);
    }
  }

  lemma FirstEnds(m: Pieces, lo: nat, hi: nat, first: nat, o: nat)
    requires Disjoint(m, lo, hi) && first in m && o in m && first < o
    ensures first + |m[first]| <= o
  {
    assert !Meets(first, first + |m[first]|, o, o + |m[o]|);
  }

  lemma LeastKey(m: Pieces) returns (first: nat)
    requires m.Keys != {}
    ensures first == MinKey(m.Keys) && first in m && forall o | o in m :: first <= o
  {
    first := MinKey(m.Keys);
  }

  lemma EmptyTotal(m: Pieces)
    requires m.Keys == {}
    ensures Total(m) == 0
  {
    assert Lengths(m).Keys == {};
  }

  /** Pieces that do not overlap fill no more than the room they lie in; if they fill all of it, the
      first one starts at its beginning. */
  lemma {:induction false} DisjointFits(m: Pieces, lo: nat, hi: nat)
    requires lo <= hi && Disjoint(m, lo, hi)
    ensures Total(m) <= hi - lo
    ensures Total(m) == hi - lo && m.Keys != {} ==> MinKey(m.Keys) == lo
    ensures m.Keys == {} ==> Total(m) == 0
    decreases |m|
  {
    hide Total, Disjoint;
    if m.Keys == {} {
      EmptyTotal(m);
    } else {
      var first: nat := MinKey(m.Keys);
      PieceInRange(m, first, lo, hi);
      AfterFirst(m, lo, hi);
      TotalRemove(m, first);
      DisjointFits(m - {first}, first + |m[first]|, hi);
    }
  }

  /** The bytes of the pieces, least offset first. */
  ghost function Flatten(m: Pieces): Bytes
    decreases |m|
  {
    if m.Keys == {} then []
    else
      var first: nat := MinKey(m.Keys);
      RemoveShrinks(m, first);
      m[first] + Flatten(m - {first})
  }

  /** Every piece stands in the packet at its own offset, counted from `lo`. */
  ghost predicate Carries(packet: Bytes, m: Pieces, lo: nat) {
    forall o | o in m :: lo <= o && o - lo + |m[o]| <= |packet| && packet[o - lo..o - lo + |m[o]|] == m[o]
  }

  /** Pieces of total length N that do not overlap in [0, N) are contiguous: put one after the other they
      make up N bytes, and each piece lands at its own offset. */
  lemma {:induction false} FlattenPlaces(m: Pieces, lo: nat, hi: nat)
    requires lo <= hi && Disjoint(m, lo, hi) && Total(m) == hi - lo
    ensures |Flatten(m)| == hi - lo
    ensures Carries(Flatten(m), m, lo)
    decreases |m|
  {
    hide Total, Disjoint, Carries, Flatten;
    DisjointFits(m, lo, hi);
    FlattenStep(m);
    if m.Keys != {} {
      var first: nat := MinKey(m.Keys);
      AfterFirst(m, lo, hi);
      TotalRemove(m, first);
      PieceInRange(m, first, lo, hi);
      FlattenPlaces(m - {first}, first + |m[first]|, hi);
      CarriesOneMore(m, first, Flatten(m - {first}));
    } else {
      CarriesNothing(m, lo);
    }
  }

  lemma FlattenStep(m: Pieces)
    ensures m.Keys == {} ==> Flatten(m) == []
    ensures m.Keys != {} ==> var first: nat := MinKey(m.Keys); Flatten(m) == m[first] + Flatten(m - {first})
  {
  }

  lemma CarriesNothing(m: Pieces, lo: nat)
    requires m.Keys == {}
    ensures Carries([], m, lo)
  {
  }

  lemma CarriesOneMore(m: Pieces, first: nat, rest: Bytes)
    requires first in m && Carries(rest, m - {first}, first + |m[first]|)
    ensures Carries(m[first] + rest, m, first)
  {
    forall o | o in m && o != first
      ensures first <= o && o - first + |m[o]| <= |m[first] + rest|
              && (m[first] + rest)[o - first..o - first + |m[o]|] == m[o]
    {
      assert (m - {first})[o] == m[o];
      SliceBehind(m[first], rest, o - first - |m[first]|, |m[o]|);
    }
  }

  lemma PieceInRange(m: Pieces, o: nat, lo: nat, hi: nat)
    requires Disjoint(m, lo, hi) && o in m
    ensures lo <= o && o + |m[o]| <= hi && |m[o]| > 0
  {
  }

  lemma SliceBehind(a: Bytes, b: Bytes, at: nat, size: nat)
    requires at + size <= |b|
    ensures (a + b)[|a| + at..|a| + at + size] == b[at..at + size]
  {
  }

  // ---- Assemblies ----

  datatype Assembly = Assembly(totalLen: nat, createdAt: nat, fragments: Pieces, received: nat)

  type Assemblies = map<nat, Assembly>

  ghost function Sizes(a: Assemblies): map<nat, nat> {
    map id | id in a :: a[id].received
  }

  ghost function Memory(a: Assemblies): nat {
    Sum(Sizes(a))
  }

  /** An incomplete packet: its fragments fit it without overlapping, and some are missing. */
  ghost predicate ValidAssembly(x: Assembly) {
    && 0 < x.totalLen < U16_LIMIT
    && Disjoint(x.fragments, 0, x.totalLen)
    && x.received == Total(x.fragments) < x.totalLen
  }

  ghost predicate Inv(a: Assemblies) {
    && (forall id | id in a :: ValidAssembly(a[id]))
    && |a| <= MAX_REASSEMBLIES
    && Memory(a) <= MAX_REASSEMBLY_MEMORY
  }

  predicate Expired(x: Assembly, now: nat) {
    now >= x.createdAt + REASSEMBLY_TIMEOUT
  }

  function ExpiredIds(a: Assemblies, now: nat): set<nat> {
    set id | id in a && Expired(a[id], now)
  }

  function Expire(a: Assemblies, now: nat): Assemblies {
    a - ExpiredIds(a, now)
  }

  predicate Overlaps(m: Pieces, offset: nat, end: nat) {
    exists o | o in m :: Meets(offset, end, o, o + |m[o]|)
  }

  /** What storing one parsed fragment does, and what it gives back. */
  ghost function StoreOne(a: Assemblies, f: Fragment, now: nat): (Assemblies, Result<Option<Bytes>, FragmentError>) {
    var x := Target(a, f, now);
    if x.totalLen != f.totalLen then (a - {f.packetId}, Err(TotalChanged))
    else if f.offset in x.fragments then
      if x.fragments[f.offset] == f.data then (a[f.packetId := x], Ok(None)) else (a - {f.packetId}, Err(Conflicting))
    else if Overlaps(x.fragments, f.offset, f.offset + |f.data|) then (a - {f.packetId}, Err(Overlapping))
    else if Memory(a) + |f.data| > MAX_REASSEMBLY_MEMORY then (a[f.packetId := x], Err(MemoryReached))
    else
      var pieces := x.fragments[f.offset := f.data];
      if x.received + |f.data| != x.totalLen
      then (a[f.packetId := x.(fragments := pieces, received := x.received + |f.data|)], Ok(None))
      else (a - {f.packetId}, Ok(Some(Flatten(pieces))))
  }

  /** What one fragment body does: an error, nothing yet, or a packet. */
  ghost function PushOne(before: Assemblies, body: Bytes, now: nat)
    : (Assemblies, Result<Option<Bytes>, FragmentError>)
  {
    var a := Expire(before, now);
    match Parse(body)
    case Err(e) => (a, Err(e))
    case Ok(f) =>
      if f.packetId !in a && |a| >= MAX_REASSEMBLIES then (a, Err(LimitReached))
      else StoreOne(a, f, now)
  }

  lemma EmptyMemory()
    ensures Memory(map[]) == 0
  {
    assert Sizes(map[]).Keys == {};
  }

  lemma MemoryAdd(a: Assemblies, id: nat, x: Assembly)
    requires id !in a
    ensures Memory(a[id := x]) == Memory(a) + x.received
  {
    hide Sum;
    SumAdd(Sizes(a), id, x.received);
    assert Sizes(a[id := x]) == Sizes(a)[id := x.received];
  }

  lemma MemoryRemove(a: Assemblies, id: nat)
    requires id in a
    ensures Memory(a) == Memory(a - {id}) + a[id].received
    ensures |a - {id}| == |a| - 1
  {
    RemoveThenPut(a, id);
    MemoryAdd(a - {id}, id, a[id]);
    assert (a - {id}).Keys == a.Keys - {id};
  }

  lemma MemoryPut(a: Assemblies, id: nat, x: Assembly)
    ensures Memory(a[id := x]) == Memory(a) - (if id in a then a[id].received else 0) + x.received
    ensures id in a ==> a[id].received <= Memory(a) && |a[id := x]| == |a|
    ensures id !in a ==> |a[id := x]| == |a| + 1
  {
    hide Memory;
    if id in a {
      MemoryRemove(a, id);
      MemoryAdd(a - {id}, id, x);
      PutBack(a, id, x);
    } else {
      MemoryAdd(a, id, x);
    }
    assert a[id := x].Keys == a.Keys + {id};
  }

  lemma PutBack(a: Assemblies, id: nat, x: Assembly)
    ensures (a - {id})[id := x] == a[id := x]
    ensures a[id := x] - {id} == a - {id}
  {
    assert (a - {id})[id := x].Keys == a[id := x].Keys;
    assert (a[id := x] - {id}).Keys == (a - {id}).Keys;
  }

  lemma ExpireKeepsInv(a: Assemblies, now: nat)
    requires Inv(a)
    ensures Inv(Expire(a, now)) && Memory(Expire(a, now)) <= Memory(a) && |Expire(a, now)| <= |a|
  {
    hide Sum, ValidAssembly;
    var gone := ExpiredIds(a, now);
    SumOfSome(Sizes(a), gone);
    assert Sizes(a - gone) == Sizes(a) - gone;
    assert (a - gone).Keys <= a.Keys;
    SubsetSize((a - gone).Keys, a.Keys);
  }

  /** Adding a piece that meets none of the others keeps them disjoint, and so they still fit. */
  lemma PieceAdded(x: Assembly, offset: nat, data: Bytes)
    requires Disjoint(x.fragments, 0, x.totalLen) && x.received == Total(x.fragments)
    requires |data| > 0 && offset + |data| <= x.totalLen
    requires offset !in x.fragments && !Overlaps(x.fragments, offset, offset + |data|)
    ensures var pieces := x.fragments[offset := data];
            && Disjoint(pieces, 0, x.totalLen)
            && Total(pieces) == x.received + |data| <= x.totalLen
  {
    hide Total, Disjoint, Overlaps;
    DisjointAdded(x.fragments, x.totalLen, offset, data);
    TotalAdd(x.fragments, offset, data);
    DisjointFits(x.fragments[offset := data], 0, x.totalLen);
  }

  lemma DisjointAdded(m: Pieces, hi: nat, offset: nat, data: Bytes)
    requires Disjoint(m, 0, hi) && offset !in m && |data| > 0 && offset + |data| <= hi
    requires !Overlaps(m, offset, offset + |data|)
    ensures Disjoint(m[offset := data], 0, hi)
  {
    hide Meets;
    var pieces := m[offset := data];
    forall o, q | o in pieces && q in pieces && o != q
      ensures !Meets(o, o + |pieces[o]|, q, q + |pieces[q]|)
    {
      if o == offset {
        assert !Meets(offset, offset + |data|, q, q + |m[q]|);
      } else if q == offset {
        assert !Meets(offset, offset + |data|, o, o + |m[o]|);
        MeetsSymmetric(offset, offset + |data|, o, o + |m[o]|);
      }
    }
  }

  lemma MeetsSymmetric(a: nat, b: nat, c: nat, d: nat)
    ensures Meets(a, b, c, d) == Meets(c, d, a, b)
  {
  }

  lemma NewAssembly(totalLen: nat, now: nat)
    requires 0 < totalLen < U16_LIMIT
    ensures ValidAssembly(Assembly(totalLen, now, map[], 0))
  {
    assert Lengths(map[]).Keys == {};
  }

  lemma PutKeepsInv(a: Assemblies, id: nat, x: Assembly)
    requires Inv(a) && (id in a || |a| < MAX_REASSEMBLIES) && ValidAssembly(x)
    requires Memory(a) - (if id in a then a[id].received else 0) + x.received <= MAX_REASSEMBLY_MEMORY
    ensures Inv(a[id := x])
  {
    hide Memory, ValidAssembly;
    MemoryPut(a, id, x);
  }

  lemma RemoveKeepsInv(a: Assemblies, id: nat)
    requires Inv(a)
    ensures Inv(a - {id})
  {
    hide Memory, ValidAssembly;
    if id in a {
      MemoryRemove(a, id);
    } else {
      assert a - {id} == a;
    }
  }

  /** The assembly a fragment goes to, which may be new and empty. */
  function Target(a: Assemblies, f: Fragment, now: nat): Assembly {
    if f.packetId in a then a[f.packetId] else Assembly(f.totalLen, now, map[], 0)
  }

  ghost predicate Young(a: Assemblies, now: nat) {
    forall id | id in a :: now < a[id].createdAt + REASSEMBLY_TIMEOUT
  }

  lemma TargetValid(a: Assemblies, f: Fragment, now: nat)
    requires Inv(a) && f.Valid()
    ensures ValidAssembly(Target(a, f, now)) && Memory(a) <= MAX_REASSEMBLY_MEMORY
  {
    hide Disjoint, Total;
    NewAssembly(f.totalLen, now);
  }

  /** The step in which a fragment is stored, and possibly completes its packet. */
  lemma StoreKeepsInv(a: Assemblies, f: Fragment, now: nat)
    requires Inv(a) && f.Valid() && (f.packetId in a || |a| < MAX_REASSEMBLIES)
    requires var x := Target(a, f, now);
             && ValidAssembly(x) && x.totalLen == f.totalLen && f.offset !in x.fragments
             && !Overlaps(x.fragments, f.offset, f.offset + |f.data|)
             && Memory(a) + |f.data| <= MAX_REASSEMBLY_MEMORY
    ensures var x := Target(a, f, now);
            var pieces := x.fragments[f.offset := f.data];
            && Disjoint(pieces, 0, x.totalLen)
            && Total(pieces) == x.received + |f.data| <= x.totalLen
            && (x.received + |f.data| != x.totalLen ==>
                  Inv(a[f.packetId := x.(fragments := pieces, received := x.received + |f.data|)]))
  {
    hide Memory, Overlaps, Inv, Disjoint, Total;
    var x := Target(a, f, now);
    PieceAdded(x, f.offset, f.data);
    if x.received + |f.data| != x.totalLen {
      PutKeepsInv(a, f.packetId, x.(fragments := x.fragments[f.offset := f.data], received := x.received + |f.data|));
    }
  }

  lemma StoreOneKeepsInv(a: Assemblies, f: Fragment, now: nat)
    requires Inv(a) && f.Valid() && (f.packetId in a || |a| < MAX_REASSEMBLIES)
    ensures var (a1, r) := StoreOne(a, f, now);
            && Inv(a1) && (Young(a, now) ==> Young(a1, now))
            && (r.Ok? && r.value.Some? ==>
                  && |r.value.value| == f.totalLen
                  && Carries(r.value.value, Target(a, f, now).fragments[f.offset := f.data], 0))
  {
    hide Memory, Disjoint, Total, Overlaps, Flatten, Carries, Inv, ValidAssembly;
    var x := Target(a, f, now);
    RemoveKeepsInv(a, f.packetId);
    TargetValid(a, f, now);
    PutKeepsInv(a, f.packetId, x);
    if x.totalLen == f.totalLen && f.offset !in x.fragments && !Overlaps(x.fragments, f.offset, f.offset + |f.data|)
       && Memory(a) + |f.data| <= MAX_REASSEMBLY_MEMORY
    {
      StoreKeepsInv(a, f, now);
      if x.received + |f.data| == x.totalLen {
        FlattenPlaces(x.fragments[f.offset := f.data], 0, x.totalLen);
      }
    }
  }

  /** Everything one push keeps and gives: the invariant; that what survives is younger than 3 s, also
      after a refusal that leaves an empty assembly behind; and that a returned packet is as long as its
      fragments said and carries each of them at its offset. */
  lemma PushKeepsInv(before: Assemblies, body: Bytes, now: nat)
    requires Inv(before)
    ensures var (a1, r) := PushOne(before, body, now); Inv(a1) && Young(a1, now)
    ensures var r := PushOne(before, body, now).1;
            r.Ok? && r.value.Some? ==>
              && Parse(body).Ok?
              && var f := Parse(body).value;
                 && |r.value.value| == f.totalLen
                 && Carries(r.value.value, Target(Expire(before, now), f, now).fragments[f.offset := f.data], 0)
  {
    hide Inv, Parse, StoreOne, Carries;
    ExpireKeepsInv(before, now);
    assert Young(Expire(before, now), now);
    if Parse(body).Ok? {
      ParsedIsValid(body);
      var f := Parse(body).value;
      if f.packetId in Expire(before, now) || |Expire(before, now)| < MAX_REASSEMBLIES {
        StoreOneKeepsInv(Expire(before, now), f, now);
      }
    }
  }

  lemma ReceivedFits(a: Assemblies)
    requires Inv(a)
    ensures Memory(a) <= |a| * (U16_LIMIT - 2) <= MAX_REASSEMBLIES * (U16_LIMIT - 2)
  {
    hide Disjoint, Total;
    assert forall id | id in Sizes(a) :: Sizes(a)[id] <= U16_LIMIT - 2;
    SumAtMost(Sizes(a), U16_LIMIT - 2);
    assert Sizes(a).Keys == a.Keys;
    assert |Sizes(a)| == |Sizes(a).Keys| == |a|;
  }

  lemma InvSize(a: Assemblies)
    requires Inv(a)
    ensures |a| <= MAX_REASSEMBLIES
  {
    hide Memory, ValidAssembly;
  }

  lemma NoMemoryRefusal(a: Assemblies, f: Fragment, now: nat)
    requires Inv(a) && f.Valid()
    ensures StoreOne(a, f, now).1 != Err(MemoryReached)
    ensures Memory(a) + |f.data| <= MAX_REASSEMBLY_MEMORY
  {
    hide Inv, Memory, Disjoint, Total, Overlaps, Flatten;
    InvSize(a);
    ReceivedFits(a);
  }

  /** The memory limit is dead: 64 incomplete packets never hold 8 MiB, so no push is refused for it. */
  lemma MemoryNeverRefuses(before: Assemblies, body: Bytes, now: nat)
    requires Inv(before)
    ensures PushOne(before, body, now).1 != Err(MemoryReached)
  {
    hide Inv, Memory, Disjoint, Total, Overlaps, Flatten;
    ExpireKeepsInv(before, now);
    ReceivedFits(Expire(before, now));
    if Parse(body).Ok? { ParsedIsValid(body); }
  }

  /** A state reached from the empty reassembler by pushing any bodies at any times. */
  ghost function After(pushes: seq<(Bytes, nat)>): Assemblies {
    if pushes == [] then map[]
    else
      var last := pushes[|pushes| - 1];
      PushOne(After(pushes[..|pushes| - 1]), last.0, last.1).0
  }

  /** In every reachable state all assemblies are valid and incomplete, there are at most 64 of them and
      together they hold at most 8 MiB. */
  lemma {:induction false} ReachableInv(pushes: seq<(Bytes, nat)>)
    ensures Inv(After(pushes))
    decreases |pushes|
  {
    if pushes == [] {
      EmptyMemory();
    } else {
      ReachableInv(pushes[..|pushes| - 1]);
      var last := pushes[|pushes| - 1];
      PushKeepsInv(After(pushes[..|pushes| - 1]), last.0, last.1);
    }
  }

  // ---- The reassembler object ----

  /** The loop over the sorted fragments, the same on both sides; the two exits the sources keep for gaps
      are the branches marked unreachable. */
  method Assemble(x: Assembly) returns (packet: Bytes)
    requires Disjoint(x.fragments, 0, x.totalLen) && Total(x.fragments) == x.totalLen
    ensures packet == Flatten(x.fragments)
  {
    hide Disjoint, Total, Flatten;
    var expected: nat := 0;
    packet := [];
    var rest := x.fragments;
    assert [] + Flatten(rest) == Flatten(rest);
    while rest.Keys != {}
      invariant expected <= x.totalLen
      invariant Disjoint(rest, expected, x.totalLen) && Total(rest) == x.totalLen - expected
      invariant Flatten(x.fragments) == packet + Flatten(rest)
      decreases |rest|
    {
      FlattenStep(rest);
      var offset := First(rest);
      DisjointFits(rest, expected, x.totalLen);
      if offset != expected {
        assert false;
      }
      AfterFirst(rest, expected, x.totalLen);
      TotalRemove(rest, offset);
      PieceInRange(rest, offset, expected, x.totalLen);
      assert packet + (rest[offset] + Flatten(rest - {offset})) == packet + rest[offset] + Flatten(rest - {offset});
      packet := packet + rest[offset];
      expected := expected + |rest[offset]|;
      rest := rest - {offset};
    }
    FlattenStep(rest);
    DisjointFits(rest, expected, x.totalLen);
    if expected != x.totalLen {
      assert false;
    }
    assert packet + [] == packet;
  }

  /** The least key, which is where an ordered map starts. */
  method First(m: Pieces) returns (offset: nat)
    requires m.Keys != {}
    ensures offset == MinKey(m.Keys)
  {
    var keys := m.Keys;
    ghost var least: nat := MinKey(keys);
    assert least in keys && forall o | o in keys :: least <= o;
    offset :| offset in keys && forall o | o in keys :: offset <= o;
  }

  class FragmentReassembler {
    var assemblies: map<nat, Assembly>
    var memory: nat

    ghost predicate Valid()
      reads this
    {
      Inv(assemblies) && memory == Memory(assemblies)
    }

    constructor ()
      ensures Valid() && assemblies == map[]
    {
      assemblies := map[];
      memory := 0;
      new;
      EmptyMemory();
    }

    /** The subtraction saturates in the source; it never has to, which the type of `memory` checks. */
    method Remove(packetId: nat)
      requires Valid()
      modifies this
      ensures Valid() && assemblies == old(assemblies) - {packetId}
    {
      hide Memory, ValidAssembly;
      RemoveKeepsInv(assemblies, packetId);
      if packetId in assemblies {
        MemoryRemove(assemblies, packetId);
        memory := memory - assemblies[packetId].received;
        assemblies := assemblies - {packetId};
      } else {
        assert assemblies - {packetId} == assemblies;
      }
    }

    method ExpireAt(now: nat)
      requires Valid()
      modifies this
      ensures Valid() && assemblies == Expire(old(assemblies), now)
    {
      hide Inv, Memory;
      var expired := ExpiredIds(assemblies, now);
      ghost var before := assemblies;
      ghost var removed: set<nat> := {};
      assert assemblies == before - removed;
      while expired != {}
        invariant Valid()
        invariant assemblies == before - removed
        invariant removed + expired == ExpiredIds(before, now)
        decreases |expired|
      {
        var packetId :| packetId in expired;
        Remove(packetId);
        RemoveMore(before, removed, packetId);
        expired := expired - {packetId};
        removed := removed + {packetId};
      }
      assert removed == ExpiredIds(before, now);
    }

    method Push(body: Bytes, now: nat) returns (r: Result<Option<Bytes>, FragmentError>)
      requires Valid()
      modifies this
      ensures Valid()
      ensures (assemblies, r) == PushOne(old(assemblies), body, now)
    {
      hide Memory, Disjoint, Total, Parse, Flatten, Expire, ValidAssembly;
      PushKeepsInv(assemblies, body, now);
      ExpireAt(now);
      ghost var kept := assemblies;
      var parsed := Parse(body);
      if parsed.Err? {
        return Err(parsed.error);
      }
      var fragment := parsed.value;
      ParsedIsValid(body);
      if fragment.packetId !in assemblies && |assemblies| >= MAX_REASSEMBLIES {
        return Err(LimitReached);
      }
      r := Store(fragment, now);
    }

    /** The entry of the fragment's packet is made if it is not there. */
    method MakeEntry(fragment: Fragment, now: nat)
      requires Valid() && fragment.Valid() && (fragment.packetId in assemblies || |assemblies| < MAX_REASSEMBLIES)
      modifies `assemblies
      ensures Valid()
      ensures assemblies == old(assemblies)[fragment.packetId := Target(old(assemblies), fragment, now)]
      ensures ValidAssembly(assemblies[fragment.packetId])
    {
      hide Memory, ValidAssembly, Inv;
      var id := fragment.packetId;
      TargetValid(assemblies, fragment, now);
      if id !in assemblies {
        NewAssembly(fragment.totalLen, now);
        PutKeepsInv(assemblies, id, Assembly(fragment.totalLen, now, map[], 0));
        MemoryPut(assemblies, id, Assembly(fragment.totalLen, now, map[], 0));
        assemblies := assemblies[id := Assembly(fragment.totalLen, now, map[], 0)];
      }
    }

    /** The rest of the push, for a fragment that parsed and has a place to go. */
    method Store(fragment: Fragment, now: nat) returns (r: Result<Option<Bytes>, FragmentError>)
      requires Valid() && fragment.Valid() && (fragment.packetId in assemblies || |assemblies| < MAX_REASSEMBLIES)
      modifies this
      ensures Valid()
      ensures (assemblies, r) == StoreOne(old(assemblies), fragment, now)
    {
      hide Memory, ValidAssembly, Inv, Target, StoreOne;
      ghost var kept := assemblies;
      MakeEntry(fragment, now);
      EntryMade(kept, fragment, now);
      r := StoreThere(fragment, now);
    }

    /** The packet of the fragment has its entry. */
    method StoreThere(fragment: Fragment, now: nat) returns (r: Result<Option<Bytes>, FragmentError>)
      requires Valid() && fragment.Valid() && fragment.packetId in assemblies
      modifies this
      ensures Valid()
      ensures (assemblies, r) == StoreOne(old(assemblies), fragment, now)
    {
      hide Memory, Disjoint, Total, Flatten, ValidAssembly, Overlaps, Inv;
      var id := fragment.packetId;
      TargetThere(assemblies, fragment, now);
      TargetValid(assemblies, fragment, now);
      var x := assemblies[id];
      assert assemblies[id := x] == assemblies;
      if x.totalLen != fragment.totalLen {
        Remove(id);
        return Err(TotalChanged);
      }
      if fragment.offset in x.fragments {
        if x.fragments[fragment.offset] == fragment.data {
          return Ok(None);
        }
        Remove(id);
        return Err(Conflicting);
      }
      if Overlaps(x.fragments, fragment.offset, fragment.offset + |fragment.data|) {
        Remove(id);
        return Err(Overlapping);
      }
      if memory + |fragment.data| > MAX_REASSEMBLY_MEMORY {
        return Err(MemoryReached);
      }
      r := Grow(fragment, now);
    }

    /** Adds a fragment that fits, and gives the packet if it was the last one missing. */
    method Grow(fragment: Fragment, ghost now: nat) returns (r: Result<Option<Bytes>, FragmentError>)
      requires Valid() && fragment.Valid() && fragment.packetId in assemblies
      requires var x := assemblies[fragment.packetId];
               && ValidAssembly(x) && x.totalLen == fragment.totalLen && fragment.offset !in x.fragments
               && !Overlaps(x.fragments, fragment.offset, fragment.offset + |fragment.data|)
               && memory + |fragment.data| <= MAX_REASSEMBLY_MEMORY
      modifies this
      ensures Valid()
      ensures var id := fragment.packetId;
              var x := old(assemblies)[id];
              var grown := x.(received := x.received + |fragment.data|,
                              fragments := x.fragments[fragment.offset := fragment.data]);
              if grown.received != grown.totalLen
              then assemblies == old(assemblies)[id := grown] && r == Ok(None)
              else assemblies == old(assemblies) - {id} && r == Ok(Some(Flatten(grown.fragments)))
    {
      hide Memory, Disjoint, Total, Flatten, ValidAssembly, Overlaps, Inv;
      var id := fragment.packetId;
      var x := assemblies[id];
      TargetThere(assemblies, fragment, now);
      StoreKeepsInv(assemblies, fragment, now);
      var grown := x.(received := x.received + |fragment.data|,
                      fragments := x.fragments[fragment.offset := fragment.data]);
      MemoryPut(assemblies, id, grown);
      if grown.received != grown.totalLen {
        assemblies := assemblies[id := grown];
        memory := memory + |fragment.data|;
        return Ok(None);
      }
      var packet := Assemble(grown);
      Remove(id);
      return Ok(Some(packet));
    }
  }

  /** Storing the first fragment of a packet. */
  lemma StoreFirst(a: Assemblies, f: Fragment, now: nat)
    requires f.packetId in a ==> a[f.packetId] == Assembly(f.totalLen, now, map[], 0)
    ensures var id := f.packetId;
            var x := Assembly(f.totalLen, now, map[], 0);
            var pieces := x.fragments[f.offset := f.data];
            StoreOne(a, f, now)
            == if Memory(a) + |f.data| > MAX_REASSEMBLY_MEMORY then (a[id := x], Err(MemoryReached))
               else if |f.data| != f.totalLen then (a[id := x.(fragments := pieces, received := |f.data|)], Ok(None))
               else (a - {id}, Ok(Some(Flatten(pieces))))
  {
    hide Memory, Flatten;
  }

  /** An empty entry changes nothing about what storing does. */
  lemma EntryMade(a: Assemblies, f: Fragment, now: nat)
    requires Inv(a) && f.Valid() && (f.packetId in a || |a| < MAX_REASSEMBLIES)
    ensures var made := a[f.packetId := Target(a, f, now)];
            StoreOne(made, f, now) == StoreOne(a, f, now)
  {
    hide Memory, ValidAssembly, Flatten, Inv, StoreOne;
    var id := f.packetId;
    var x := Target(a, f, now);
    var made := a[id := x];
    if id in a {
      assert made == a;
    } else {
      StoreFirst(a, f, now);
      StoreFirst(made, f, now);
      MemoryPut(a, id, x);
      PutBack(a, id, x);
      PutTwice(a, id, x, x);
      PutTwice(a, id, x, x.(fragments := x.fragments[f.offset := f.data], received := |f.data|));
    }
  }

  lemma TargetThere(a: Assemblies, f: Fragment, now: nat)
    requires f.packetId in a
    ensures Target(a, f, now) == a[f.packetId]
  {
  }

  lemma RemoveMore(a: Assemblies, removed: set<nat>, id: nat)
    ensures (a - removed) - {id} == a - (removed + {id})
  {
    assert ((a - removed) - {id}).Keys == (a - (removed + {id})).Keys;
  }

  lemma PutTwice(a: Assemblies, id: nat, x: Assembly, y: Assembly)
    ensures a[id := x][id := y] == a[id := y]
  {
    assert a[id := x][id := y].Keys == a[id := y].Keys;
  }
}
