/** What one fragment does, in terms of the bytes that are held: which fragments contradict a packet under way, and
    when the packet is complete. */
module FragmentRules {
  import opened Prelude
  import Sums
  import opened Reassembly

  predicate HeldAt(m: Pieces, k: nat) {
    exists o | o in m :: o <= k < o + |m[o]|
  }

  /** The places below `n` that are held. */
  function Held(m: Pieces, n: nat): set<nat> {
    set k: nat | k < n && HeldAt(m, k)
  }

  function Range(from: nat, end: nat): (r: set<nat>)
    requires from <= end
    ensures forall k: nat :: k in r <==> from <= k < end
    ensures |r| == end - from
    decreases end
  {
    if from == end then {}
    else
      var last: nat := end - 1;
      Range(from, last) + {last}
  }

  lemma {:induction false} HeldIsTotal(m: Pieces, lo: nat, n: nat)
    requires lo <= n && Disjoint(m, lo, n)
    ensures |Held(m, n)| == Total(m)
    decreases |m|
  {
    hide Total, Disjoint;
    if m.Keys == {} {
      EmptyTotal(m);
      assert Held(m, n) == {};
    } else {
      var first: nat := LeastKey(m);
      PieceInRange(m, first, lo, n);
      AfterFirst(m, lo, n);
      TotalRemove(m, first);
      var end := first + |m[first]|;
      HeldIsTotal(m - {first}, end, n);
      HeldSplits(m, first, end, n);
    }
  }

  lemma HeldSplits(m: Pieces, first: nat, end: nat, n: nat)
    requires first in m && end == first + |m[first]| <= n && Disjoint(m - {first}, end, n)
    ensures |Held(m, n)| == |m[first]| + |Held(m - {first}, n)|
  {
    var rest := m - {first};
    forall k: nat | k in Held(rest, n) ensures end <= k {
      var o :| o in rest && o <= k < o + |rest[o]|;
      assert rest[o] == m[o];
    }
    forall k: nat | k < n
      ensures HeldAt(m, k) <==> first <= k < end || HeldAt(rest, k)
    {
      if HeldAt(rest, k) {
        var o :| o in rest && o <= k < o + |rest[o]|;
        assert o in m && m[o] == rest[o];
      }
      if HeldAt(m, k) {
        var o :| o in m && o <= k < o + |m[o]|;
        assert o != first ==> o in rest && rest[o] == m[o];
      }
      if first <= k < end { assert first in m; }
    }
    assert Held(m, n) == Range(first, end) + Held(rest, n);
  }

  /** Pieces that do not overlap fill their packet exactly when every place is held. */
  lemma FullIff(m: Pieces, n: nat)
    requires Disjoint(m, 0, n)
    ensures Total(m) == n <==> forall k: nat | k < n :: HeldAt(m, k)
  {
    hide Total, Disjoint, HeldAt;
    HeldIsTotal(m, 0, n);
    var all := Range(0, n);
    assert Held(m, n) <= all;
    if |Held(m, n)| == n {
      SameSize(Held(m, n), all);
      forall k: nat | k < n ensures HeldAt(m, k) { assert k in all; }
    }
    if forall k: nat | k < n :: HeldAt(m, k) { assert Held(m, n) == all; }
  }

  lemma SameSize(a: set<nat>, b: set<nat>)
    requires a <= b && |a| == |b|
    ensures a == b
  {
    assert |b - a| == 0;
  }

  /** The fragment meets another exactly when one of its places is held. */
  lemma OverlapsIff(m: Pieces, from: nat, end: nat)
    requires from < end && forall o | o in m :: |m[o]| > 0
    ensures Overlaps(m, from, end) <==> exists k: nat | from <= k < end :: HeldAt(m, k)
  {
    if Overlaps(m, from, end) {
      var o: nat :| o in m && Meets(from, end, o, o + |m[o]|);
      assert HeldAt(m, if o < from then from else o);
    }
  }

  /** The packet's length is the same, and the fragment repeats one that is held or lies in places that are not. */
  predicate Agrees(f: Fragment, x: Assembly) {
    && f.totalLen == x.totalLen
    && (Repeats(f, x) || forall k: nat | f.offset <= k < f.offset + |f.data| :: !HeldAt(x.fragments, k))
  }

  predicate Repeats(f: Fragment, x: Assembly) {
    f.totalLen == x.totalLen && f.offset in x.fragments && x.fragments[f.offset] == f.data
  }

  /** With the fragment every place of the packet is held. */
  predicate Completes(f: Fragment, x: Assembly) {
    forall k: nat | k < x.totalLen :: f.offset <= k < f.offset + |f.data| || HeldAt(x.fragments, k)
  }

  lemma HeldWith(m: Pieces, offset: nat, data: Bytes, k: nat)
    requires offset !in m
    ensures HeldAt(m[offset := data], k) <==> offset <= k < offset + |data| || HeldAt(m, k)
  {
    var pieces := m[offset := data];
    if HeldAt(pieces, k) {
      var o :| o in pieces && o <= k < o + |pieces[o]|;
      assert o != offset ==> o in m && m[o] == pieces[o];
    }
    if HeldAt(m, k) {
      var o :| o in m && o <= k < o + |m[o]|;
      assert o in pieces && pieces[o] == m[o];
    }
    if offset <= k < offset + |data| { assert offset in pieces && pieces[offset] == data; }
  }

  lemma PieceCompletes(a: Assemblies, f: Fragment, now: nat)
    requires Inv(a) && f.Valid() && (f.packetId in a || |a| < MAX_REASSEMBLIES)
    requires var x := Target(a, f, now);
             && x.totalLen == f.totalLen && f.offset !in x.fragments
             && !Overlaps(x.fragments, f.offset, f.offset + |f.data|)
    ensures var x := Target(a, f, now); x.received + |f.data| == x.totalLen <==> Completes(f, x)
  {
    hide Inv, Memory, Total, HeldAt, Overlaps, Disjoint;
    var x := Target(a, f, now);
    NoMemoryRefusal(a, f, now);
    TargetValid(a, f, now);
    StoreKeepsInv(a, f, now);
    var pieces := x.fragments[f.offset := f.data];
    FullIff(pieces, x.totalLen);
    forall k: nat | k < x.totalLen
      ensures HeldAt(pieces, k) <==> f.offset <= k < f.offset + |f.data| || HeldAt(x.fragments, k)
    {
      HeldWith(x.fragments, f.offset, f.data, k);
    }
    assert Completes(f, x) <==> forall k: nat | k < x.totalLen :: HeldAt(pieces, k);
  }

  function Unexpired(a: Assemblies, now: nat): Assemblies {
    map id | id in a && now < a[id].createdAt + 3_000_000_000 :: a[id]
  }

  lemma ExpireMeans(a: Assemblies, now: nat)
    ensures Expire(a, now) == Unexpired(a, now)
  {
    assert Expire(a, now).Keys == Unexpired(a, now).Keys;
  }

  /** What a fragment that parses does, whatever came before. Packets under way for 3 s are given up first. A fragment
      of a new packet is refused when 64 are under way. One that contradicts its packet -- another length, other bytes
      at its place, or a place that is held -- is refused and its packet given up; one that repeats a held fragment
      changes nothing; and the packet is complete exactly when every one of its places is held. */
  lemma PushMeans(before: Assemblies, body: Bytes, now: nat)
    requires Inv(before) && Parse(body).Ok?
    ensures var f := Parse(body).value;
            var a := Unexpired(before, now);
            var x := if f.packetId in a then a[f.packetId] else Assembly(f.totalLen, now, map[], 0);
            var (a1, r) := PushOne(before, body, now);
            if f.packetId !in a && |a| >= 64 then r == Err(LimitReached) && a1 == a
            else if !Agrees(f, x) then r.Err? && a1 == a - {f.packetId}
            else if Repeats(f, x) then r == Ok(None) && a1 == a
            else if Completes(f, x) then r.Ok? && r.value.Some? && a1 == a - {f.packetId}
            else
              && r == Ok(None)
              && a1 == a[f.packetId := x.(fragments := x.fragments[f.offset := f.data],
                                          received := x.received + |f.data|)]
  {
    hide Parse, StoreOne, Inv, Agrees, Repeats, Completes, Expire, Unexpired;
    var f := Parse(body).value;
    var a := Unexpired(before, now);
    ExpireMeans(before, now);
    ExpireKeepsInv(before, now);
    ParsedIsValid(body);
    if f.packetId in a || |a| < 64 { StoreMeans(a, f, now); }
  }

  lemma StoreMeans(a: Assemblies, f: Fragment, now: nat)
    requires Inv(a) && f.Valid() && (f.packetId in a || |a| < 64)
    ensures var x := Target(a, f, now);
            var (a1, r) := StoreOne(a, f, now);
            if !Agrees(f, x) then r.Err? && a1 == a - {f.packetId}
            else if Repeats(f, x) then r == Ok(None) && a1 == a
            else if Completes(f, x) then r.Ok? && r.value.Some? && a1 == a - {f.packetId}
            else
              && r == Ok(None)
              && a1 == a[f.packetId := x.(fragments := x.fragments[f.offset := f.data],
                                          received := x.received + |f.data|)]
  {
    hide Inv, Memory, Total, HeldAt, Flatten, Completes, Overlaps, Disjoint;
    var x := Target(a, f, now);
    TargetValid(a, f, now);
    NoMemoryRefusal(a, f, now);
    NotEmpty(x);
    OverlapsIff(x.fragments, f.offset, f.offset + |f.data|);
    if f.offset in x.fragments { HeldAtStart(x.fragments, f.offset); }
    if x.totalLen == f.totalLen && f.offset !in x.fragments
       && !Overlaps(x.fragments, f.offset, f.offset + |f.data|) {
      PieceCompletes(a, f, now);
    }
    if f.packetId in a { assert a[f.packetId := x] == a; }
  }

  lemma NotEmpty(x: Assembly)
    requires ValidAssembly(x)
    ensures forall o | o in x.fragments :: |x.fragments[o]| > 0
  {
  }

  lemma HeldAtStart(m: Pieces, o: nat)
    requires o in m && |m[o]| > 0
    ensures HeldAt(m, o)
  {
  }
}
