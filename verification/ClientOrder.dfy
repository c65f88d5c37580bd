/** Which packet the client gives up for a new one when 64 are under way: on a clock that does not go back, always the
    one it began first; and then it does what the server would do without that packet. */
module ClientOrder {
  import opened Prelude
  import opened Reassembly
  import opened ClientReassembly

  /** Earlier packets come first. */
  predicate Sorted(order: seq<nat>, a: Assemblies)
    requires forall i | 0 <= i < |order| :: order[i] in a
  {
    forall i, j | 0 <= i < j < |order| :: a[order[i]].createdAt <= a[order[j]].createdAt
  }

  ghost predicate Chronological(s: Ordered, now: nat) {
    && InOrder(s.order, s.assemblies.Keys)
    && Sorted(s.order, s.assemblies)
    && forall id | id in s.assemblies :: s.assemblies[id].createdAt <= now
  }

  lemma {:induction false} StillFrom(order: seq<nat>, keys: set<nat>)
    ensures forall id | id in Still(order, keys) :: id in order && id in keys
    decreases |order|
  {
    if order != [] { StillFrom(order[..|order| - 1], keys); }
  }

  lemma {:induction false} StillSorted(order: seq<nat>, a: Assemblies, keys: set<nat>)
    requires forall i | 0 <= i < |order| :: order[i] in a
    requires Sorted(order, a)
    ensures forall i | 0 <= i < |Still(order, keys)| :: Still(order, keys)[i] in a
    ensures Sorted(Still(order, keys), a)
    decreases |order|
  {
    if order != [] {
      var n := |order| - 1;
      StillSorted(order[..n], a, keys);
      StillFrom(order[..n], keys);
      var first := Still(order[..n], keys);
      forall i | 0 <= i < |first| ensures a[first[i]].createdAt <= a[order[n]].createdAt {
        assert first[i] in order[..n];
      }
    }
  }

  /** The same packets, some of them gone. */
  predicate Left(a: Assemblies, b: Assemblies) {
    forall id | id in b :: id in a && b[id].createdAt == a[id].createdAt
  }

  lemma SortedLeft(order: seq<nat>, a: Assemblies, b: Assemblies)
    requires forall i | 0 <= i < |order| :: order[i] in a && order[i] in b
    requires Sorted(order, a) && Left(a, b)
    ensures Sorted(order, b)
  {
  }

  lemma StoreKeepsTimes(a: Assemblies, f: Fragment, now: nat)
    ensures var a1 := StoreOne(a, f, now).0;
            && (forall id | id in a1 && id in a :: a1[id].createdAt == a[id].createdAt)
            && (forall id | id in a1 && id !in a :: id == f.packetId && a1[id].createdAt == now)
  {
    hide Memory, Overlaps, Flatten;
  }

  /** In a sorted order the packet that is given up is the first. */
  lemma FirstIsVictim(kept: Assemblies, order: seq<nat>)
    requires InOrder(order, kept.Keys) && order != [] && KeysOf(order, kept) && Sorted(order, kept)
    ensures Victim(kept, order) == order[0]
  {
    hide InOrder;
    assert FirstOldest(kept, order, order[0]);
    OneIsFirst(kept, order, order[0], Victim(kept, order));
  }

  /** Keeping the order after a store with room for it. */
  lemma StoreInOrder(base: Assemblies, order: seq<nat>, f: Fragment, now: nat)
    requires InOrder(order, base.Keys) && Sorted(order, base) && forall id | id in base :: base[id].createdAt <= now
    ensures var after := StoreOne(base, f, now).0;
            Chronological(Ordered(after, OrderAfter(order, base.Keys, after.Keys, f.packetId)), now)
  {
    hide StoreOne, Still;
    var after := StoreOne(base, f, now).0;
    StoreKeepsTimes(base, f, now);
    var still := Still(order, base.Keys * after.Keys);
    StillInOrder(order, base.Keys, base.Keys * after.Keys);
    StillSorted(order, base, base.Keys * after.Keys);
    StillFrom(order, base.Keys * after.Keys);
    var next := OrderAfter(order, base.Keys, after.Keys, f.packetId);
    forall i, j | 0 <= i < j < |next| ensures after[next[i]].createdAt <= after[next[j]].createdAt {
      assert next[i] == still[i];
    }
  }

  /** The packets the client still has, in their order, when a fragment arrives. */
  ghost function Waiting(s: Ordered, now: nat): Ordered {
    var kept := Expire(s.assemblies, now);
    Ordered(kept, Still(s.order, kept.Keys))
  }

  lemma WaitingInOrder(s: Ordered, now: nat, earlier: nat)
    requires Chronological(s, earlier) && earlier <= now
    ensures Chronological(Waiting(s, now), now)
  {
    hide Still;
    var kept := Expire(s.assemblies, now);
    StillInOrder(s.order, s.assemblies.Keys, kept.Keys);
    StillSorted(s.order, s.assemblies, kept.Keys);
    StillFrom(s.order, kept.Keys);
    SortedLeft(Still(s.order, kept.Keys), s.assemblies, kept);
  }

  lemma ExpireWithout(a: Assemblies, id: nat, now: nat)
    ensures Expire(a - {id}, now) == Expire(a, now) - {id}
  {
    assert Expire(a - {id}, now).Keys == (Expire(a, now) - {id}).Keys;
  }

  lemma WithoutFirst(w: Ordered, now: nat)
    requires Chronological(w, now) && w.order != []
    ensures var base := w.assemblies - {w.order[0]};
            var order := Still(w.order, base.Keys);
            && InOrder(order, base.Keys) && Sorted(order, base)
            && (forall id | id in base :: base[id].createdAt <= now)
  {
    hide Still;
    var base := w.assemblies - {w.order[0]};
    StillInOrder(w.order, w.assemblies.Keys, base.Keys);
    StillSorted(w.order, w.assemblies, base.Keys);
    StillFrom(w.order, base.Keys);
    SortedLeft(Still(w.order, base.Keys), w.assemblies, base);
  }

  /** A new packet arrives and there is no room for it. */
  predicate Full(w: Ordered, body: Bytes, maximum: nat) {
    ParseFor(body, maximum).Ok? && Crowded(w.assemblies, ParseFor(body, maximum).value)
  }

  /** The order after a push that gave up nothing, or the first. */
  lemma OrderGoesOn(w: Ordered, base: Assemblies, f: Fragment, now: nat)
    requires Chronological(w, now)
    requires base == w.assemblies || (w.order != [] && base == w.assemblies - {w.order[0]})
    ensures var after := StoreOne(base, f, now).0;
            Chronological(Ordered(after, OrderAfter(w.order, base.Keys, after.Keys, f.packetId)), now)
  {
    hide StoreOne, Still, InOrder;
    var after := StoreOne(base, f, now).0;
    if base == w.assemblies {
      StoreInOrder(base, w.order, f, now);
    } else {
      WithoutFirst(w, now);
      StoreInOrder(base, Still(w.order, base.Keys), f, now);
      StillTwice(w.order, base.Keys, base.Keys * after.Keys);
      assert base.Keys * (base.Keys * after.Keys) == base.Keys * after.Keys;
    }
  }

  /** On a clock that does not go back, packets stay in the order in which they were begun. */
  lemma PushKeepsOrder(s: Ordered, body: Bytes, now: nat, maximum: nat, earlier: nat)
    requires Chronological(s, earlier) && earlier <= now
    ensures Chronological(OrderedPush(s, body, now, maximum).0, now)
  {
    hide Parse, StoreOne, Still, Chronological, Expire, OrderAfter;
    WaitingInOrder(s, now, earlier);
    var w := Waiting(s, now);
    match ParseFor(body, maximum)
    case Err(_) => NothingMoves(w, now, PacketId(body, maximum));
    case Ok(f) =>
      if Full(w, body, maximum) {
        FullFirst(w, now);
        OrderGoesOn(w, w.assemblies - {w.order[0]}, f, now);
      } else {
        OrderGoesOn(w, w.assemblies, f, now);
      }
  }

  lemma NothingMoves(w: Ordered, now: nat, packetId: nat)
    requires Chronological(w, now)
    ensures OrderAfter(w.order, w.assemblies.Keys, w.assemblies.Keys, packetId) == w.order
  {
    hide Still;
    StillAll(w.order, w.assemblies.Keys);
    assert w.assemblies.Keys * w.assemblies.Keys == w.assemblies.Keys;
  }

  lemma FullFirst(w: Ordered, now: nat)
    requires Chronological(w, now)
    ensures |w.assemblies| > 0 ==>
              && w.order != [] && w.order[0] in w.assemblies && Victim(w.assemblies, w.order) == w.order[0]
              && forall id | id in w.assemblies :: w.assemblies[w.order[0]].createdAt <= w.assemblies[id].createdAt
  {
    if |w.assemblies| > 0 {
      SomeOrder(w.order, w.assemblies.Keys);
      KeysInOrder(w.order, w.assemblies);
      FirstIsVictim(w.assemblies, w.order);
    }
  }

  /** When a new packet finds 64 under way, the one given up is the one begun first, and the push is what the server
      would do without it. */
  lemma OldestIsGivenUp(s: Ordered, body: Bytes, now: nat, maximum: nat, earlier: nat)
    requires Chronological(s, earlier) && earlier <= now && Inv(s.assemblies)
    requires Full(Waiting(s, now), body, maximum)
    ensures var w := Waiting(s, now);
            && w.order != [] && w.order[0] in w.assemblies
            && (forall id | id in w.assemblies ::
                  w.assemblies[w.order[0]].createdAt <= w.assemblies[id].createdAt)
            && var (s1, r) := OrderedPush(s, body, now, maximum);
               (s1.assemblies, r) == PushOne(s.assemblies - {w.order[0]}, body, now)
  {
    hide Parse, StoreOne, Still, Chronological, Inv, Expire, OrderAfter;
    WaitingInOrder(s, now, earlier);
    ExpireKeepsInv(s.assemblies, now);
    var w := Waiting(s, now);
    FullFirst(w, now);
    ExpireWithout(s.assemblies, w.order[0], now);
    GiveUp(w.assemblies, w.order[0]);
  }
}
