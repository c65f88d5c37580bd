/** A packet cut into fragments comes out of the reassembler unchanged, whatever order the fragments
    arrive in and however often they are repeated before the last one is there. */
module ReassemblyOrder {
  import opened Prelude
  import opened Reassembly

  /** Where a packet is cut: from 0 to its length, every part non-empty. */
  predicate Cuts(cuts: seq<nat>, size: nat) {
    && |cuts| >= 2 && cuts[0] == 0 && cuts[|cuts| - 1] == size
    && forall i | 0 <= i < |cuts| - 1 :: cuts[i] < cuts[i + 1]
  }

  function Count(cuts: seq<nat>): nat
    requires |cuts| >= 2
  {
    |cuts| - 1
  }

  lemma {:induction false} CutsIncrease(cuts: seq<nat>, size: nat, i: nat, j: nat)
    requires Cuts(cuts, size) && i < j < |cuts|
    ensures cuts[i] < cuts[j] <= size
    decreases |cuts| - i + j
  {
    if i + 1 < j {
      CutsIncrease(cuts, size, i, j - 1);
      assert cuts[j - 1] < cuts[j - 1 + 1];
    }
    if j < |cuts| - 1 { CutsReachEnd(cuts, size, j); }
  }

  lemma {:induction false} CutsReachEnd(cuts: seq<nat>, size: nat, j: nat)
    requires Cuts(cuts, size) && j < |cuts|
    ensures cuts[j] <= size
    decreases |cuts| - j
  {
    if j < |cuts| - 1 {
      CutsReachEnd(cuts, size, j + 1);
      assert cuts[j] < cuts[j + 1];
    }
  }

  function Part(packet: Bytes, cuts: seq<nat>, i: nat): Bytes
    requires Cuts(cuts, |packet|) && i < Count(cuts)
  {
    CutsReachEnd(cuts, |packet|, i + 1);
    assert cuts[i] < cuts[i + 1];
    packet[cuts[i]..cuts[i + 1]]
  }

  function FragmentOf(packet: Bytes, cuts: seq<nat>, id: nat, i: nat): (f: Fragment)
    requires Cuts(cuts, |packet|) && i < Count(cuts)
    ensures id < U32_LIMIT && |packet| < U16_LIMIT ==> f.Valid()
  {
    CutsReachEnd(cuts, |packet|, i + 1);
    assert cuts[i] < cuts[i + 1];
    Fragment(id, |packet|, cuts[i], Part(packet, cuts, i))
  }

  ghost function Indices(n: nat): set<nat> {
    if n == 0 then {} else Indices(n - 1) + {n - 1}
  }

  lemma {:induction false} IndicesMembers(n: nat, i: nat)
    ensures i in Indices(n) <==> i < n
  {
    if n > 0 { IndicesMembers(n - 1, i); }
  }

  /** The pieces held are exactly the parts whose indices were seen. */
  ghost predicate Holds(m: Pieces, packet: Bytes, cuts: seq<nat>, seen: set<nat>)
    requires Cuts(cuts, |packet|)
  {
    && (forall i | i in seen :: i < Count(cuts) && cuts[i] in m && m[cuts[i]] == Part(packet, cuts, i))
    && (forall o | o in m :: exists i :: i in seen && i < Count(cuts) && cuts[i] == o)
  }

  /** Two different parts of a packet do not meet. */
  lemma PartsApart(packet: Bytes, cuts: seq<nat>, i: nat, k: nat)
    requires Cuts(cuts, |packet|) && i < Count(cuts) && k < Count(cuts) && i != k
    ensures cuts[i] != cuts[k]
    ensures !Meets(cuts[i], cuts[i] + |Part(packet, cuts, i)|, cuts[k], cuts[k] + |Part(packet, cuts, k)|)
  {
    CutsIncrease(cuts, |packet|, i, i + 1);
    CutsIncrease(cuts, |packet|, k, k + 1);
    assert |Part(packet, cuts, i)| == cuts[i + 1] - cuts[i];
    assert |Part(packet, cuts, k)| == cuts[k + 1] - cuts[k];
    if k < i {
      CutsIncrease(cuts, |packet|, k, i);
      if k + 1 < i { CutsIncrease(cuts, |packet|, k + 1, i); }
    } else {
      CutsIncrease(cuts, |packet|, i, k);
      if i + 1 < k { CutsIncrease(cuts, |packet|, i + 1, k); }
    }
  }

  /** A part not seen yet meets none of the pieces held. */
  lemma UnseenPartFits(m: Pieces, packet: Bytes, cuts: seq<nat>, seen: set<nat>, i: nat)
    requires Cuts(cuts, |packet|) && Holds(m, packet, cuts, seen) && i < Count(cuts) && i !in seen
    ensures cuts[i] !in m && !Overlaps(m, cuts[i], cuts[i] + |Part(packet, cuts, i)|)
  {
    hide Cuts, Part;
    forall o | o in m
      ensures o != cuts[i] && !Meets(cuts[i], cuts[i] + |Part(packet, cuts, i)|, o, o + |m[o]|)
    {
      var k :| k in seen && k < Count(cuts) && cuts[k] == o;
      PartsApart(packet, cuts, i, k);
    }
  }

  lemma HoldsOneMore(m: Pieces, packet: Bytes, cuts: seq<nat>, seen: set<nat>, i: nat)
    requires Cuts(cuts, |packet|) && Holds(m, packet, cuts, seen) && i < Count(cuts) && i !in seen
    ensures Holds(m[cuts[i] := Part(packet, cuts, i)], packet, cuts, seen + {i})
  {
    var more := m[cuts[i] := Part(packet, cuts, i)];
    forall k | k in seen + {i}
      ensures k < Count(cuts) && cuts[k] in more && more[cuts[k]] == Part(packet, cuts, k)
    {
      if k != i {
        if k < i { CutsIncrease(cuts, |packet|, k, i); } else { CutsIncrease(cuts, |packet|, i, k); }
      }
    }
    forall o | o in more
      ensures exists k :: k in seen + {i} && k < Count(cuts) && cuts[k] == o
    {
      if o in m {
        var k :| k in seen && k < Count(cuts) && cuts[k] == o;
        assert k in seen + {i};
      } else {
        assert i in seen + {i};
      }
    }
  }

  /** The first `k` parts together are as long as the cut behind them. */
  ghost function FirstParts(packet: Bytes, cuts: seq<nat>, k: nat): Pieces
    requires Cuts(cuts, |packet|) && k <= Count(cuts)
  {
    if k == 0 then map[] else FirstParts(packet, cuts, k - 1)[cuts[k - 1] := Part(packet, cuts, k - 1)]
  }

  lemma {:induction false} FirstPartsHold(packet: Bytes, cuts: seq<nat>, k: nat)
    requires Cuts(cuts, |packet|) && k <= Count(cuts)
    ensures Holds(FirstParts(packet, cuts, k), packet, cuts, Indices(k))
    ensures Total(FirstParts(packet, cuts, k)) == cuts[k]
  {
    hide Total, Holds;
    if k == 0 {
      NothingHeld(packet, cuts);
    } else {
      FirstPartsHold(packet, cuts, k - 1);
      IndicesMembers(k - 1, k - 1);
      var before := FirstParts(packet, cuts, k - 1);
      HoldsOneMore(before, packet, cuts, Indices(k - 1), k - 1);
      UnseenPartFits(before, packet, cuts, Indices(k - 1), k - 1);
      TotalAdd(before, cuts[k - 1], Part(packet, cuts, k - 1));
      CutsIncrease(cuts, |packet|, k - 1, k);
    }
  }

  lemma NothingHeld(packet: Bytes, cuts: seq<nat>)
    requires Cuts(cuts, |packet|)
    ensures Holds(map[], packet, cuts, {}) && Total(map[]) == 0
  {
    assert Lengths(map[]).Keys == {};
  }

  lemma SameHeld(m: Pieces, q: Pieces, packet: Bytes, cuts: seq<nat>, seen: set<nat>)
    requires Cuts(cuts, |packet|) && Holds(m, packet, cuts, seen) && Holds(q, packet, cuts, seen)
    ensures m == q
  {
    hide Cuts;
    HeldBoth(m, q, packet, cuts, seen);
    HeldBoth(q, m, packet, cuts, seen);
  }

  lemma HeldBoth(m: Pieces, q: Pieces, packet: Bytes, cuts: seq<nat>, seen: set<nat>)
    requires Cuts(cuts, |packet|) && Holds(m, packet, cuts, seen) && Holds(q, packet, cuts, seen)
    ensures forall o | o in m :: o in q && q[o] == m[o]
  {
    hide Part;
    forall o | o in m
      ensures o in q && q[o] == m[o]
    {
      var i :| i in seen && i < Count(cuts) && cuts[i] == o;
    }
  }

  /** All parts together fill the packet. */
  lemma AllPartsFill(m: Pieces, packet: Bytes, cuts: seq<nat>)
    requires Cuts(cuts, |packet|) && Holds(m, packet, cuts, Indices(Count(cuts)))
    ensures Total(m) == |packet|
  {
    hide Total, Holds, Indices, FirstParts;
    FirstPartsHold(packet, cuts, Count(cuts));
    SameHeld(m, FirstParts(packet, cuts, Count(cuts)), packet, cuts, Indices(Count(cuts)));
  }

  /** The part that a byte of the packet falls into. */
  lemma {:induction false} PartOf(packet: Bytes, cuts: seq<nat>, b: nat, k: nat) returns (i: nat)
    requires Cuts(cuts, |packet|) && k <= Count(cuts) && b < cuts[k]
    ensures i < k && cuts[i] <= b < cuts[i + 1]
    decreases k
  {
    if k == 0 || cuts[k - 1] <= b { i := k - 1; } else { i := PartOf(packet, cuts, b, k - 1); }
  }

  lemma CarriesByte(result: Bytes, m: Pieces, packet: Bytes, cuts: seq<nat>, b: nat, i: nat)
    requires Cuts(cuts, |packet|) && i < Count(cuts) && cuts[i] <= b < cuts[i + 1] <= |packet|
    requires cuts[i] in m && m[cuts[i]] == packet[cuts[i]..cuts[i + 1]]
    requires |result| == |packet| && Carries(result, m, 0)
    ensures result[b] == packet[b]
  {
    var o: nat := cuts[i];
    assert result[o - 0..o - 0 + |m[o]|] == m[o];
    assert result[b] == result[o - 0..o - 0 + |m[o]|][b - o];
    assert packet[b] == packet[cuts[i]..cuts[i + 1]][b - o];
  }

  /** Whatever carries all parts of a packet at their offsets, and is as long, is the packet. */
  lemma CarriesAllIsPacket(result: Bytes, m: Pieces, packet: Bytes, cuts: seq<nat>)
    requires Cuts(cuts, |packet|) && Holds(m, packet, cuts, Indices(Count(cuts)))
    requires |result| == |packet| && Carries(result, m, 0)
    ensures result == packet
  {
    hide Carries, Indices;
    forall b | 0 <= b < |packet|
      ensures result[b] == packet[b]
    {
      var i := PartOf(packet, cuts, b, Count(cuts));
      IndicesMembers(Count(cuts), i);
      CutsReachEnd(cuts, |packet|, i + 1);
      CarriesByte(result, m, packet, cuts, b, i);
    }
  }

  // ---- One fragment ----

  /** A packet on its way: where it is cut, and the identifier its fragments carry. */
  datatype Flow = Flow(packet: Bytes, cuts: seq<nat>, id: nat) {
    predicate Valid() {
      Cuts(cuts, |packet|) && |packet| < U16_LIMIT && id < U32_LIMIT
    }

    function Body(i: nat): Bytes
      requires Valid() && i < Count(cuts)
    {
      Encode(FragmentOf(packet, cuts, id, i))
    }

    ghost function All(): set<nat>
      requires Valid()
    {
      Indices(Count(cuts))
    }
  }

  /** The reassembler holds exactly the parts seen so far, in an assembly made at `start`. With nothing seen
      there is no such assembly. */
  ghost predicate UnderWay(a: Assemblies, f: Flow, start: nat, seen: set<nat>)
    requires f.Valid()
  {
    if seen == {} then f.id !in a
    else
      && f.id in a
      && a[f.id].totalLen == |f.packet|
      && a[f.id].createdAt == start
      && Holds(a[f.id].fragments, f.packet, f.cuts, seen)
  }

  /** The assembly as the next fragment finds it. */
  lemma TargetHolds(a: Assemblies, f: Flow, start: nat, seen: set<nat>, index: nat, now: nat)
    requires f.Valid() && index < Count(f.cuts) && Inv(a) && UnderWay(a, f, start, seen)
    requires seen == {} ==> now == start
    ensures var x := Target(a, FragmentOf(f.packet, f.cuts, f.id, index), now);
            && ValidAssembly(x) && x.totalLen == |f.packet| && x.createdAt == start
            && Holds(x.fragments, f.packet, f.cuts, seen)
  {
    hide Holds, Memory;
    NothingHeld(f.packet, f.cuts);
    CutsIncrease(f.cuts, |f.packet|, 0, Count(f.cuts));
    NewAssembly(|f.packet|, now);
  }

  /** The pieces after a new part was stored. */
  lemma NewPartPieces(x: Assembly, f: Flow, seen: set<nat>, index: nat)
    requires f.Valid() && index < Count(f.cuts) && index !in seen && seen <= f.All()
    requires ValidAssembly(x) && x.totalLen == |f.packet| && Holds(x.fragments, f.packet, f.cuts, seen)
    ensures var part := FragmentOf(f.packet, f.cuts, f.id, index);
            var pieces := x.fragments[part.offset := part.data];
            && part.offset !in x.fragments && !Overlaps(x.fragments, part.offset, part.offset + |part.data|)
            && Disjoint(pieces, 0, |f.packet|) && Total(pieces) == x.received + |part.data|
            && Holds(pieces, f.packet, f.cuts, seen + {index})
            && (Total(pieces) == |f.packet| <==> seen + {index} == f.All())
  {
    hide Holds, Overlaps, Total, Disjoint, Indices, Part;
    var part := FragmentOf(f.packet, f.cuts, f.id, index);
    UnseenPartFits(x.fragments, f.packet, f.cuts, seen, index);
    PieceAdded(x, part.offset, part.data);
    HoldsOneMore(x.fragments, f.packet, f.cuts, seen, index);
    IndicesMembers(Count(f.cuts), index);
    var pieces := x.fragments[part.offset := part.data];
    if seen + {index} == f.All() {
      AllPartsFill(pieces, f.packet, f.cuts);
    } else {
      MissingPart(pieces, f.packet, f.cuts, seen + {index});
    }
  }

  /** While a part is missing the pieces do not fill the packet. */
  lemma MissingPart(m: Pieces, packet: Bytes, cuts: seq<nat>, seen: set<nat>)
    requires Cuts(cuts, |packet|) && Holds(m, packet, cuts, seen) && Disjoint(m, 0, |packet|)
    requires seen <= Indices(Count(cuts)) && seen != Indices(Count(cuts))
    ensures Total(m) < |packet|
  {
    hide Total;
    var i :| i in Indices(Count(cuts)) && i !in seen;
    IndicesMembers(Count(cuts), i);
    UnseenPartFits(m, packet, cuts, seen, i);
    CutsIncrease(cuts, |packet|, i, i + 1);
    PieceAdded(Assembly(|packet|, 0, m, Total(m)), cuts[i], Part(packet, cuts, i));
  }

  /** All parts together give the packet. */
  lemma PiecesGivePacket(pieces: Pieces, f: Flow)
    requires f.Valid() && Holds(pieces, f.packet, f.cuts, f.All())
    requires Disjoint(pieces, 0, |f.packet|) && Total(pieces) == |f.packet|
    ensures Flatten(pieces) == f.packet
  {
    hide Holds, Total, Disjoint, Flatten, Carries, Indices;
    FlattenPlaces(pieces, 0, |f.packet|);
    CarriesAllIsPacket(Flatten(pieces), pieces, f.packet, f.cuts);
  }

  /** What storing a part does to the assembly it belongs to, in four cases of `StoreOne`. */
  lemma StoredRepeat(a: Assemblies, part: Fragment, now: nat)
    requires var x := Target(a, part, now);
             x.totalLen == part.totalLen && part.offset in x.fragments && x.fragments[part.offset] == part.data
    ensures StoreOne(a, part, now) == (a[part.packetId := Target(a, part, now)], Ok(None))
  {
    hide Memory, Flatten, Target;
  }

  lemma StoredNew(a: Assemblies, part: Fragment, now: nat)
    requires var x := Target(a, part, now);
             && x.totalLen == part.totalLen && part.offset !in x.fragments
             && !Overlaps(x.fragments, part.offset, part.offset + |part.data|)
             && Memory(a) + |part.data| <= MAX_REASSEMBLY_MEMORY
    ensures var x := Target(a, part, now);
            var pieces := x.fragments[part.offset := part.data];
            StoreOne(a, part, now) ==
              if x.received + |part.data| != x.totalLen
              then (a[part.packetId := x.(fragments := pieces, received := x.received + |part.data|)], Ok(None))
              else (a - {part.packetId}, Ok(Some(Flatten(pieces))))
  {
    hide Memory, Overlaps, Flatten, Target;
  }

  /** One part stored in its place: other packets are not touched. */
  lemma StorePart(a: Assemblies, f: Flow, start: nat, seen: set<nat>, index: nat, now: nat)
    requires f.Valid() && index < Count(f.cuts) && seen <= f.All()
    requires Inv(a) && UnderWay(a, f, start, seen) && (f.id in a || |a| < MAX_REASSEMBLIES)
    requires seen == {} ==> now == start
    ensures var (a1, r) := StoreOne(a, FragmentOf(f.packet, f.cuts, f.id, index), now);
            && Inv(a1) && a1 - {f.id} == a - {f.id}
            && if index !in seen && seen + {index} == f.All()
               then r == Ok(Some(f.packet)) && f.id !in a1
               else r == Ok(None) && UnderWay(a1, f, start, seen + {index})
  {
    hide Inv, StoreOne, Holds, Overlaps, Total, Disjoint, Indices, Part, ValidAssembly, Memory, Flatten, Cuts, Target;
    var part := FragmentOf(f.packet, f.cuts, f.id, index);
    PartFields(f, index);
    StoreOneKeepsInv(a, part, now);
    NoMemoryRefusal(a, part, now);
    TargetHolds(a, f, start, seen, index, now);
    var x := Target(a, part, now);
    if index in seen {
      HeldPart(x.fragments, f, seen, index);
      StoredRepeat(a, part, now);
      OnlyOne(a, f.id, x);
      assert seen + {index} == seen;
    } else {
      NewPartPieces(x, f, seen, index);
      StoredNew(a, part, now);
      var pieces := x.fragments[part.offset := part.data];
      ReceivedIsTotal(x);
      OnlyOne(a, f.id, x.(fragments := pieces, received := x.received + |part.data|));
      if seen + {index} == f.All() {
        PiecesGivePacket(pieces, f);
      }
    }
  }

  lemma PartFields(f: Flow, index: nat)
    requires f.Valid() && index < Count(f.cuts)
    ensures var part := FragmentOf(f.packet, f.cuts, f.id, index);
            part.Valid() && part.packetId == f.id && part.totalLen == |f.packet|
  {
  }

  lemma HeldPart(m: Pieces, f: Flow, seen: set<nat>, index: nat)
    requires f.Valid() && index in seen && index < Count(f.cuts) && Holds(m, f.packet, f.cuts, seen)
    ensures var part := FragmentOf(f.packet, f.cuts, f.id, index); part.offset in m && m[part.offset] == part.data
  {
  }

  lemma ReceivedIsTotal(x: Assembly)
    requires ValidAssembly(x)
    ensures x.received == Total(x.fragments) < x.totalLen
  {
  }

  lemma OnlyOne(a: Assemblies, id: nat, x: Assembly)
    ensures a[id := x] - {id} == a - {id} && (a - {id}) - {id} == a - {id}
  {
    assert (a[id := x] - {id}).Keys == (a - {id}).Keys;
    assert ((a - {id}) - {id}).Keys == (a - {id}).Keys;
  }

  /** A fragment that finds a place is stored, in what is left after the expired packets went. */
  lemma PushStores(a: Assemblies, f: Flow, index: nat, now: nat)
    requires f.Valid() && index < Count(f.cuts)
    ensures var left := Expire(a, now);
            PushOne(a, f.Body(index), now)
            == if f.id !in left && |left| >= MAX_REASSEMBLIES then (left, Err(LimitReached))
               else StoreOne(left, FragmentOf(f.packet, f.cuts, f.id, index), now)
  {
    hide Encode, Parse, StoreOne, Expire, Cuts, FragmentOf;
    PartFields(f, index);
    FragmentRoundTrip(FragmentOf(f.packet, f.cuts, f.id, index));
  }

  lemma UnderWayExpires(a: Assemblies, f: Flow, start: nat, seen: set<nat>, now: nat)
    requires f.Valid() && UnderWay(a, f, start, seen)
    ensures UnderWay(Expire(a, now), f, start, if now < start + REASSEMBLY_TIMEOUT then seen else {})
  {
    hide Holds, Cuts;
  }

  /** One arrival: a repeated part changes nothing, a new one is stored, and the last one gives the packet.
      Of other packets only the expired ones go. */
  lemma OneArrival(a0: Assemblies, f: Flow, start: nat, seen: set<nat>, index: nat, now: nat)
    requires f.Valid() && index < Count(f.cuts) && seen <= f.All() && Inv(a0) && UnderWay(a0, f, start, seen)
    requires now < start + REASSEMBLY_TIMEOUT
    requires seen == {} ==> now == start && |Expire(a0, now)| < MAX_REASSEMBLIES
    ensures var (a1, r) := PushOne(a0, f.Body(index), now);
            && Inv(a1) && a1 - {f.id} == Expire(a0, now) - {f.id}
            && if index !in seen && seen + {index} == f.All()
               then r == Ok(Some(f.packet)) && f.id !in a1
               else r == Ok(None) && UnderWay(a1, f, start, seen + {index})
  {
    hide PushOne, Holds, StoreOne, Inv, Indices, Cuts, FragmentOf, Expire;
    ExpireKeepsInv(a0, now);
    UnderWayExpires(a0, f, start, seen, now);
    PushStores(a0, f, index, now);
    StorePart(Expire(a0, now), f, start, seen, index, now);
  }

  // ---- One packet ----

  datatype Arrival = Arrival(index: nat, at: nat)

  ghost function PushAll(a: Assemblies, f: Flow, arrivals: seq<Arrival>)
    : (Assemblies, seq<Result<Option<Bytes>, FragmentError>>)
    requires f.Valid() && forall x | x in arrivals :: x.index < Count(f.cuts)
    decreases |arrivals|
  {
    if arrivals == [] then (a, [])
    else
      var (a1, r) := PushOne(a, f.Body(arrivals[0].index), arrivals[0].at);
      var (a2, rest) := PushAll(a1, f, arrivals[1..]);
      (a2, [r] + rest)
  }

  ghost function SeenIn(arrivals: seq<Arrival>): set<nat> {
    set x | x in arrivals :: x.index
  }

  lemma {:induction false} ArrivalsComplete(a: Assemblies, f: Flow, start: nat, others: set<nat>, seen: set<nat>,
                                            arrivals: seq<Arrival>)
    requires f.Valid() && Inv(a) && UnderWay(a, f, start, seen) && seen <= f.All() && a.Keys - {f.id} <= others
    requires arrivals != [] && (forall x | x in arrivals ::
                                x.index < Count(f.cuts) && x.at < start + REASSEMBLY_TIMEOUT)
    requires seen == {} ==> arrivals[0].at == start && |a| < MAX_REASSEMBLIES
    requires seen + SeenIn(arrivals) == f.All()
    requires arrivals[|arrivals| - 1].index !in seen + SeenIn(arrivals[..|arrivals| - 1])
    ensures var (a1, results) := PushAll(a, f, arrivals);
            && |results| == |arrivals|
            && (forall k | 0 <= k < |arrivals| - 1 :: results[k] == Ok(None))
            && results[|arrivals| - 1] == Ok(Some(f.packet))
            && Inv(a1) && a1.Keys <= others - {f.id}
    decreases |arrivals|
  {
    hide UnderWay, Indices, PushOne, Inv, Encode, FragmentOf, Cuts, Expire, Flow.Body, SeenIn, PushAll, Flow.All;
    var first := arrivals[0];
    var rest := arrivals[1..];
    ExpireKeepsInv(a, first.at);
    OneArrival(a, f, start, seen, first.index, first.at);
    var a1 := PushOne(a, f.Body(first.index), first.at).0;
    KeysAfter(a, a1, f.id, first.at);
    SeenSplits(arrivals);
    PushAllStep(a, f, arrivals);
    if rest != [] {
      var last := arrivals[|arrivals| - 1];
      assert rest[|rest| - 1] == last;
      assert seen + SeenIn(arrivals) == seen + {first.index} + SeenIn(rest);
      ArrivalsComplete(a1, f, start, others, seen + {first.index}, rest);
    }
  }

  lemma PushAllStep(a: Assemblies, f: Flow, arrivals: seq<Arrival>)
    requires f.Valid() && arrivals != [] && forall x | x in arrivals :: x.index < Count(f.cuts)
    ensures var (a1, r) := PushOne(a, f.Body(arrivals[0].index), arrivals[0].at);
            var (a2, rest) := PushAll(a1, f, arrivals[1..]);
            PushAll(a, f, arrivals) == (a2, [r] + rest)
    ensures |arrivals| == 1 ==> PushAll(a, f, arrivals).1 == [PushOne(a, f.Body(arrivals[0].index), arrivals[0].at).1]
    ensures |arrivals| == 1 ==> PushAll(a, f, arrivals).0 == PushOne(a, f.Body(arrivals[0].index), arrivals[0].at).0
  {
    hide PushOne, Cuts, Flow.Body;
  }

  lemma KeysAfter(a: Assemblies, a1: Assemblies, id: nat, now: nat)
    requires a1 - {id} == Expire(a, now) - {id}
    ensures a1.Keys - {id} <= a.Keys - {id}
  {
    assert a1.Keys - {id} == (a1 - {id}).Keys;
  }

  lemma SeenSplits(arrivals: seq<Arrival>)
    requires arrivals != []
    ensures SeenIn(arrivals) == {arrivals[0].index} + SeenIn(arrivals[1..]) && SeenIn([]) == {}
    ensures arrivals[|arrivals| - 1].index in SeenIn(arrivals)
    ensures |arrivals| > 1 ==>
              SeenIn(arrivals[..|arrivals| - 1]) == {arrivals[0].index} + SeenIn(arrivals[1..][..|arrivals| - 2])
  {
    SeenFirst(arrivals);
    assert arrivals[|arrivals| - 1] in arrivals;
    if |arrivals| > 1 {
      SeenFirst(arrivals[..|arrivals| - 1]);
      assert arrivals[..|arrivals| - 1][1..] == arrivals[1..][..|arrivals| - 2];
    }
  }

  lemma SeenFirst(arrivals: seq<Arrival>)
    requires arrivals != []
    ensures SeenIn(arrivals) == {arrivals[0].index} + SeenIn(arrivals[1..])
  {
    assert forall x | x in arrivals :: x == arrivals[0] || x in arrivals[1..];
  }

  /** Fragments of one packet pushed within 3 s, in any order, with any repetitions before the last
      missing one: every push but the last gives nothing, the last one gives the packet, and nothing of
      it stays behind. Other packets may be under way, as long as there is a place for this one. */
  lemma AnyOrderReassembles(a: Assemblies, f: Flow, arrivals: seq<Arrival>)
    requires f.Valid() && Inv(a) && f.id !in a && |a| < MAX_REASSEMBLIES && arrivals != []
    requires forall x | x in arrivals :: x.index < Count(f.cuts) && x.at < arrivals[0].at + REASSEMBLY_TIMEOUT
    requires SeenIn(arrivals) == f.All()
    requires arrivals[|arrivals| - 1].index !in SeenIn(arrivals[..|arrivals| - 1])
    ensures var (a1, results) := PushAll(a, f, arrivals);
            && |results| == |arrivals|
            && (forall k | 0 <= k < |arrivals| - 1 :: results[k] == Ok(None))
            && results[|arrivals| - 1] == Ok(Some(f.packet))
            && Inv(a1) && a1.Keys <= a.Keys
  {
    hide Inv;
    ArrivalsComplete(a, f, arrivals[0].at, a.Keys, {}, arrivals);
  }

  // ---- Many packets at once ----

  datatype Delivery = Delivery(flow: nat, index: nat, at: nat)

  /** When the first part of a packet came, and which parts have come. */
  datatype Progress = Progress(start: nat, seen: set<nat>)

  ghost predicate ValidFlows(flows: seq<Flow>) {
    && (forall i | 0 <= i < |flows| :: flows[i].Valid())
    && (forall i, k | 0 <= i < k < |flows| :: flows[i].id != flows[k].id)
  }

  predicate Addressed(flows: seq<Flow>, d: Delivery) {
    d.flow < |flows| && |flows[d.flow].cuts| >= 2 && d.index < Count(flows[d.flow].cuts)
  }

  predicate AllAddressed(flows: seq<Flow>, deliveries: seq<Delivery>) {
    forall k | 0 <= k < |deliveries| :: Addressed(flows, deliveries[k])
  }

  ghost function PushEach(a: Assemblies, flows: seq<Flow>, deliveries: seq<Delivery>)
    : (Assemblies, seq<Result<Option<Bytes>, FragmentError>>)
    requires ValidFlows(flows) && AllAddressed(flows, deliveries)
    decreases |deliveries|
  {
    if deliveries == [] then (a, [])
    else
      var d := deliveries[0];
      var (a1, r) := PushOne(a, flows[d.flow].Body(d.index), d.at);
      var (a2, rest) := PushEach(a1, flows, deliveries[1..]);
      (a2, [r] + rest)
  }

  /** What there is to know about the reassembler: the other packets under way, and each flow's progress. */
  datatype Reference = Reference(others: Assemblies, progress: seq<Progress>)

  const NOT_BEGUN := Progress(0, {})

  function Nothing(flows: seq<Flow>): (progress: seq<Progress>)
    ensures |progress| == |flows| && forall i | 0 <= i < |flows| :: progress[i].seen == {}
  {
    seq(|flows|, _ => NOT_BEGUN)
  }

  /** Packets of 3 s and older are forgotten. */
  function Younger(progress: seq<Progress>, at: nat): (younger: seq<Progress>)
    ensures |younger| == |progress|
  {
    seq(|progress|, i requires 0 <= i < |progress| => if at < progress[i].start + REASSEMBLY_TIMEOUT then progress[i]
        else NOT_BEGUN)
  }

  /** The identifiers of the packets that have begun. */
  ghost function Begun(flows: seq<Flow>, progress: seq<Progress>): set<nat>
    requires |progress| == |flows|
  {
    set i | 0 <= i < |flows| && progress[i].seen != {} :: flows[i].id
  }

  /** One fragment, without a reassembler: old packets are forgotten, a packet that begins needs a place among
      64, and one that is complete is given out and may begin anew. */
  ghost function Step(flows: seq<Flow>, r: Reference, d: Delivery): (Reference, Result<Option<Bytes>, FragmentError>)
    requires ValidFlows(flows) && |r.progress| == |flows| && Addressed(flows, d)
  {
    var others, progress := Expire(r.others, d.at), Younger(r.progress, d.at);
    var f, before := flows[d.flow], progress[d.flow];
    var now := Progress(if before.seen == {} then d.at else before.start, before.seen + {d.index});
    if before.seen == {} && |others| + |Begun(flows, progress)| >= MAX_REASSEMBLIES then
      (Reference(others, progress), Err(LimitReached))
    else if now.seen == f.All() then (Reference(others, progress[d.flow := NOT_BEGUN]), Ok(Some(f.packet)))
    else (Reference(others, progress[d.flow := now]), Ok(None))
  }

  ghost function Outcomes(flows: seq<Flow>, r: Reference, deliveries: seq<Delivery>)
    : seq<Result<Option<Bytes>, FragmentError>>
    requires ValidFlows(flows) && |r.progress| == |flows| && AllAddressed(flows, deliveries)
    decreases |deliveries|
  {
    if deliveries == [] then []
    else
      var (r1, outcome) := Step(flows, r, deliveries[0]);
      [outcome] + Outcomes(flows, r1, deliveries[1..])
  }

  ghost predicate IsFlow(flows: seq<Flow>, id: nat) {
    exists i | 0 <= i < |flows| :: flows[i].id == id
  }

  /** The reassembler holds the parts of an incomplete packet. */
  ghost predicate Follows(a: Assemblies, f: Flow, x: Progress) {
    f.Valid() && x.seen <= f.All() && x.seen != f.All() && UnderWay(a, f, x.start, x.seen)
  }

  /** The reassembler is what the reference says. */
  ghost predicate Tracks(a: Assemblies, flows: seq<Flow>, r: Reference) {
    && ValidFlows(flows) && |r.progress| == |flows| && Inv(a)
    && (forall id | id in a :: id in r.others || IsFlow(flows, id))
    && (forall id | id in r.others :: id in a && a[id] == r.others[id] && !IsFlow(flows, id))
    && (forall i | 0 <= i < |flows| :: Follows(a, flows[i], r.progress[i]))
  }

  lemma NothingFollows(a: Assemblies, f: Flow)
    requires f.Valid() && f.id !in a
    ensures Follows(a, f, NOT_BEGUN)
  {
    IndicesMembers(Count(f.cuts), 0);
  }

  lemma FollowsExpires(a: Assemblies, f: Flow, x: Progress, at: nat)
    requires Follows(a, f, x)
    ensures Follows(Expire(a, at), f, if at < x.start + REASSEMBLY_TIMEOUT then x else NOT_BEGUN)
  {
    hide Indices, Cuts, UnderWay, Expire;
    UnderWayExpires(a, f, x.start, x.seen, at);
    if at >= x.start + REASSEMBLY_TIMEOUT {
      GoneUnlessUnderWay(Expire(a, at), f, x.start);
      NothingFollows(Expire(a, at), f);
    }
  }

  lemma GoneUnlessUnderWay(a: Assemblies, f: Flow, start: nat)
    requires f.Valid()
    ensures UnderWay(a, f, start, {}) <==> f.id !in a
  {
  }

  lemma TrackedExpires(a: Assemblies, flows: seq<Flow>, r: Reference, at: nat)
    requires Tracks(a, flows, r)
    ensures Tracks(Expire(a, at), flows, Reference(Expire(r.others, at), Younger(r.progress, at)))
  {
    hide Follows, Inv, Cuts, IsFlow;
    ExpireKeepsInv(a, at);
    forall i | 0 <= i < |flows|
      ensures Follows(Expire(a, at), flows[i], Younger(r.progress, at)[i])
    {
      FollowsExpires(a, flows[i], r.progress[i], at);
    }
  }

  /** What agreement says of one flow. */
  lemma FlowTracked(a: Assemblies, flows: seq<Flow>, r: Reference, k: nat)
    requires Tracks(a, flows, r) && k < |flows|
    ensures Inv(a) && Follows(a, flows[k], r.progress[k])
    ensures flows[k].id in a <==> r.progress[k].seen != {}
  {
    hide Inv, Indices, Cuts, Holds;
  }

  /** How many assemblies there are. */
  lemma TrackedSize(a: Assemblies, flows: seq<Flow>, r: Reference)
    requires Tracks(a, flows, r)
    ensures |a| == |r.others| + |Begun(flows, r.progress)|
  {
    hide Follows, Inv, Cuts;
    var begun := Begun(flows, r.progress);
    forall i: nat | i < |flows|
      ensures flows[i].id in a <==> r.progress[i].seen != {}
      ensures flows[i].id !in r.others
    {
      FlowTracked(a, flows, r, i);
      assert IsFlow(flows, flows[i].id);
    }
    assert a.Keys == r.others.Keys + begun by { TrackedKeys(a, flows, r); }
    assert r.others.Keys * begun == {};
    assert |a| == |a.Keys| && |r.others| == |r.others.Keys|;
  }

  lemma TrackedKeys(a: Assemblies, flows: seq<Flow>, r: Reference)
    requires Tracks(a, flows, r)
    requires forall i: nat | i < |flows| :: flows[i].id in a <==> r.progress[i].seen != {}
    ensures a.Keys == r.others.Keys + Begun(flows, r.progress)
  {
    hide Follows, Inv, Cuts;
    forall id | id in a && id !in r.others
      ensures id in Begun(flows, r.progress)
    {
      var i :| 0 <= i < |flows| && flows[i].id == id;
    }
  }

  /** What an arrival of one packet leaves of another. */
  lemma OtherFollows(a: Assemblies, a1: Assemblies, id: nat, g: Flow, x: Progress)
    requires a1 - {id} == a - {id} && g.id != id && Follows(a, g, x)
    ensures Follows(a1, g, x)
  {
    hide Indices, Cuts, Holds;
    assert g.id in a1 <==> g.id in a1 - {id};
    assert g.id in a <==> g.id in a - {id};
    if g.id in a { assert a1[g.id] == (a1 - {id})[g.id] == (a - {id})[g.id]; }
  }

  lemma OthersTracked(a: Assemblies, a1: Assemblies, flows: seq<Flow>, r: Reference, k: nat, now: Progress)
    requires Tracks(a, flows, r) && k < |flows|
    requires Inv(a1) && a1 - {flows[k].id} == a - {flows[k].id} && Follows(a1, flows[k], now)
    ensures Tracks(a1, flows, r.(progress := r.progress[k := now]))
  {
    hide Inv, Cuts, Follows;
    var id := flows[k].id;
    assert IsFlow(flows, id);
    forall x | x != id
      ensures x in a1 <==> x in a
      ensures x in a ==> a1[x] == a[x]
    {
      assert x in a1 <==> x in a1 - {id};
      assert x in a <==> x in a - {id};
      if x in a { assert a1[x] == (a1 - {id})[x] == (a - {id})[x]; }
    }
    forall i | 0 <= i < |flows| && i != k
      ensures Follows(a1, flows[i], r.progress[i])
    {
      assert flows[i].id != id;
      OtherFollows(a, a1, id, flows[i], r.progress[i]);
    }
  }

  /** The fragment that finds a place, and what agreement needs to know about it. */
  lemma FlowStores(a: Assemblies, f: Flow, x: Progress, index: nat, now: nat)
    requires Inv(a) && Follows(a, f, x) && index < Count(f.cuts) && (f.id in a || |a| < MAX_REASSEMBLIES)
    ensures var (a1, r) := StoreOne(a, FragmentOf(f.packet, f.cuts, f.id, index), now);
            var next := Progress(if x.seen == {} then now else x.start, x.seen + {index});
            && Inv(a1) && a1 - {f.id} == a - {f.id}
            && (if next.seen == f.All() then r == Ok(Some(f.packet)) && Follows(a1, f, NOT_BEGUN)
                else r == Ok(None) && Follows(a1, f, next))
  {
    hide StoreOne, Inv, Indices, Cuts, FragmentOf, UnderWay;
    var start := if x.seen == {} then now else x.start;
    GoneUnlessUnderWay(a, f, x.start);
    GoneUnlessUnderWay(a, f, start);
    StorePart(a, f, start, x.seen, index, now);
    NotYetSeen(x.seen, index, f.All());
    IndicesMembers(Count(f.cuts), index);
    var a1 := StoreOne(a, FragmentOf(f.packet, f.cuts, f.id, index), now).0;
    if x.seen + {index} == f.All() { NothingFollows(a1, f); }
  }

  /** One push does what the reference says, and they agree again. */
  lemma StepTracks(a: Assemblies, flows: seq<Flow>, r: Reference, d: Delivery)
    requires Tracks(a, flows, r) && Addressed(flows, d)
    ensures var (a1, outcome) := PushOne(a, flows[d.flow].Body(d.index), d.at);
            outcome == Step(flows, r, d).1 && Tracks(a1, flows, Step(flows, r, d).0)
  {
    hide PushOne, StoreOne, Inv, Indices, Cuts, Expire, FragmentOf, Younger, Follows;
    var f := flows[d.flow];
    var left := Expire(a, d.at);
    var younger := Reference(Expire(r.others, d.at), Younger(r.progress, d.at));
    TrackedExpires(a, flows, r, d.at);
    TrackedSize(left, flows, younger);
    FlowTracked(left, flows, younger, d.flow);
    PushStores(a, f, d.index, d.at);
    if f.id in left || |left| < MAX_REASSEMBLIES {
      var x := younger.progress[d.flow];
      FlowStores(left, f, x, d.index, d.at);
      var a1 := StoreOne(left, FragmentOf(f.packet, f.cuts, f.id, d.index), d.at).0;
      var next := Progress(if x.seen == {} then d.at else x.start, x.seen + {d.index});
      OthersTracked(left, a1, flows, younger, d.flow, if next.seen == f.All() then NOT_BEGUN else next);
    }
  }

  lemma NotYetSeen(seen: set<nat>, index: nat, all: set<nat>)
    requires seen != all && seen <= all
    ensures seen + {index} == all ==> index !in seen
  {
    if index in seen { assert seen + {index} == seen; }
  }

  lemma {:induction false} DeliveriesTrack(a: Assemblies, flows: seq<Flow>, r: Reference, deliveries: seq<Delivery>)
    requires Tracks(a, flows, r) && AllAddressed(flows, deliveries)
    ensures PushEach(a, flows, deliveries).1 == Outcomes(flows, r, deliveries)
    ensures Inv(PushEach(a, flows, deliveries).0)
    decreases |deliveries|
  {
    hide PushOne, Encode, FragmentOf, Cuts, Inv, Follows, Indices, IsFlow;
    if deliveries != [] {
      var d := deliveries[0];
      StepTracks(a, flows, r, d);
      DeliveriesTrack(PushOne(a, flows[d.flow].Body(d.index), d.at).0, flows, Step(flows, r, d).0, deliveries[1..]);
    }
  }

  /** Fragments of any number of packets, in any order, at any times, repeated, late or lost: every push gives
      exactly what the parts that came, their ages and the number of packets under way say. */
  lemma InterleavedReassemble(a: Assemblies, flows: seq<Flow>, deliveries: seq<Delivery>)
    requires ValidFlows(flows) && Inv(a) && (forall i | 0 <= i < |flows| :: flows[i].id !in a)
    requires AllAddressed(flows, deliveries)
    ensures PushEach(a, flows, deliveries).1 == Outcomes(flows, Reference(a, Nothing(flows)), deliveries)
    ensures Inv(PushEach(a, flows, deliveries).0)
  {
    hide PushEach, Outcomes, Inv, Cuts, Follows;
    forall i | 0 <= i < |flows|
      ensures Follows(a, flows[i], NOT_BEGUN)
    {
      NothingFollows(a, flows[i]);
    }
    DeliveriesTrack(a, flows, Reference(a, Nothing(flows)), deliveries);
  }

  /** As long as the packets under way and the new ones are at most 64, no push fails. */
  lemma {:induction false} NeverRefused(flows: seq<Flow>, r: Reference, deliveries: seq<Delivery>)
    requires ValidFlows(flows) && |r.progress| == |flows| && AllAddressed(flows, deliveries)
    requires |r.others| + |flows| <= MAX_REASSEMBLIES
    ensures forall outcome | outcome in Outcomes(flows, r, deliveries) :: outcome.Ok?
    decreases |deliveries|
  {
    hide Indices, Cuts;
    if deliveries != [] {
      var d := deliveries[0];
      FewBegun(flows, Younger(r.progress, d.at), d.flow);
      FewerOthers(r.others, d.at);
      NeverRefused(flows, Step(flows, r, d).0, deliveries[1..]);
    }
  }

  lemma FewerOthers(a: Assemblies, at: nat)
    ensures |Expire(a, at)| <= |a|
  {
    SubsetSize(Expire(a, at).Keys, a.Keys);
    assert |Expire(a, at)| == |Expire(a, at).Keys| && |a| == |a.Keys|;
  }

  lemma {:induction false} IndicesSize(n: nat)
    ensures |Indices(n)| == n
  {
    if n > 0 {
      IndicesSize(n - 1);
      IndicesMembers(n - 1, n - 1);
    }
  }

  /** A packet that has not begun is not counted. */
  lemma FewBegun(flows: seq<Flow>, progress: seq<Progress>, k: nat)
    requires |progress| == |flows| && k < |flows|
    ensures progress[k].seen == {} ==> |Begun(flows, progress)| < |flows|
  {
    if progress[k].seen == {} {
      var others := Indices(|flows|) - {k};
      IndicesSize(|flows|);
      forall i: nat ensures i in Indices(|flows|) <==> i < |flows| { IndicesMembers(|flows|, i); }
      IdsAtMost(flows, others);
      SubsetSize(Begun(flows, progress), Ids(flows, others));
    }
  }

  ghost function Ids(flows: seq<Flow>, some: set<nat>): set<nat>
    requires forall i | i in some :: i < |flows|
  {
    set i | i in some :: flows[i].id
  }

  lemma {:induction false} IdsAtMost(flows: seq<Flow>, some: set<nat>)
    requires forall i | i in some :: i < |flows|
    ensures |Ids(flows, some)| <= |some|
  {
    if some != {} {
      var k :| k in some;
      IdsAtMost(flows, some - {k});
      assert Ids(flows, some) == Ids(flows, some - {k}) + {flows[k].id};
    }
  }
}
