/** Reassembly on the client: the same steps as on the server, without a running count, without a memory limit,
    with a limit on the packet, and with the oldest assembly given up when 64 are under way. */
module ClientReassembly {
  import opened Prelude
  import opened Reassembly

  datatype Partial = Partial(total: nat, created: nat, parts: Pieces)

  type Partials = map<nat, Partial>

  /** The server's view of the client's state: what it counts, the client can sum up. */
  ghost function Counted(a: Partials): Assemblies {
    map id | id in a :: AsAssembly(a[id])
  }

  ghost function AsAssembly(x: Partial): Assembly {
    Assembly(x.total, x.created, x.parts, Total(x.parts))
  }

  function ParseFor(body: Bytes, maximum: nat): Result<Fragment, FragmentError> {
    match Parse(body)
    case Err(Truncated) => Err(Truncated)
    case Err(_) => Err(InvalidLength)
    case Ok(f) => if f.totalLen > maximum then Err(InvalidLength) else Ok(f)
  }

  predicate Crowded(kept: Assemblies, f: Fragment) {
    f.packetId !in kept && |kept| >= MAX_REASSEMBLIES
  }

  ghost predicate Oldest(kept: Assemblies, id: nat) {
    id in kept && forall other | other in kept :: kept[id].createdAt <= kept[other].createdAt
  }

  /** What one fragment body does on the client; `oldest` is the assembly that is given up if one has to be. */
  ghost function ClientPush(before: Assemblies, body: Bytes, now: nat, maximum: nat, oldest: nat)
    : (Assemblies, Result<Option<Bytes>, FragmentError>)
  {
    var kept := Expire(before, now);
    match ParseFor(body, maximum)
    case Err(e) => (kept, Err(e))
    case Ok(f) => StoreOne(if Crowded(kept, f) then kept - {oldest} else kept, f, now)
  }

  /** The client keeps the server's invariant, memory limit included, though it never looks at it. */
  lemma ClientKeepsInv(before: Assemblies, body: Bytes, now: nat, maximum: nat, oldest: nat)
    requires Inv(before)
    requires ParseFor(body, maximum).Ok? && Crowded(Expire(before, now), ParseFor(body, maximum).value) ==>
               Oldest(Expire(before, now), oldest)
    ensures var (a1, r) := ClientPush(before, body, now, maximum, oldest);
            Inv(a1) && Young(a1, now) && r != Err(MemoryReached)
  {
    hide Inv, Parse, StoreOne, Memory;
    var kept := Expire(before, now);
    ExpireKeepsInv(before, now);
    assert Young(kept, now);
    if ParseFor(body, maximum).Ok? {
      ParsedIsValid(body);
      var f := Parse(body).value;
      var base := if Crowded(kept, f) then kept - {oldest} else kept;
      if Crowded(kept, f) {
        MemoryRemove(kept, oldest);
        InvSize(kept);
        RemoveKeepsInv(kept, oldest);
      }
      StoreOneKeepsInv(base, f, now);
      NoMemoryRefusal(base, f, now);
    }
  }

  // ---- The order of insertion ----

  /** The keys of a dict in the order in which they were inserted. */
  ghost predicate InOrder(order: seq<nat>, keys: set<nat>) {
    && (forall i | 0 <= i < |order| :: order[i] in keys)
    && (forall id | id in keys :: id in order)
    && (forall i, j | 0 <= i < j < |order| :: order[i] != order[j])
  }

  /** The keys that are still there, in their order. */
  function Still(order: seq<nat>, keys: set<nat>): seq<nat> {
    if order == [] then []
    else Still(order[..|order| - 1], keys) + (if order[|order| - 1] in keys then [order[|order| - 1]] else [])
  }

  lemma {:induction false} StillInOrder(order: seq<nat>, keys: set<nat>, left: set<nat>)
    requires InOrder(order, keys) && left <= keys
    ensures InOrder(Still(order, left), left)
    decreases |order|
  {
    if order != [] {
      var n := |order| - 1;
      assert order == order[..n] + [order[n]];
      forall id | id in keys - {order[n]} ensures id in order[..n] {}
      StillInOrder(order[..n], keys - {order[n]}, left - {order[n]});
      StillWithout(order[..n], left, order[n]);
    }
  }

  lemma {:induction false} StillWithout(order: seq<nat>, keys: set<nat>, other: nat)
    requires other !in order
    ensures Still(order, keys - {other}) == Still(order, keys)
    decreases |order|
  {
    if order != [] { StillWithout(order[..|order| - 1], keys, other); }
  }

  /** The one that `min` finds: of the oldest, the first in the order. */
  ghost predicate FirstOldest(kept: Assemblies, order: seq<nat>, oldest: nat)
    requires forall i | 0 <= i < |order| :: order[i] in kept
  {
    && oldest in order
    && (forall i | 0 <= i < |order| :: kept[oldest].createdAt <= kept[order[i]].createdAt)
    && (exists i | 0 <= i < |order| ::
          order[i] == oldest && forall j | 0 <= j < i :: kept[oldest].createdAt < kept[order[j]].createdAt)
  }

  /** No choice is left. */
  lemma OneIsFirst(kept: Assemblies, order: seq<nat>, a: nat, b: nat)
    requires forall i | 0 <= i < |order| :: order[i] in kept
    requires FirstOldest(kept, order, a) && FirstOldest(kept, order, b)
    ensures a == b
  {
    var i :| 0 <= i < |order| && order[i] == a && forall j | 0 <= j < i :: kept[a].createdAt < kept[order[j]].createdAt;
    var k :| 0 <= k < |order| && order[k] == b && forall j | 0 <= j < k :: kept[b].createdAt < kept[order[j]].createdAt;
  }

  /** The order after a push that kept the packets of `base`: those that are still there, and a new packet at
      the end. */
  function OrderAfter(order: seq<nat>, base: set<nat>, after: set<nat>, packetId: nat): seq<nat> {
    Still(order, base * after) + (if packetId in after - base then [packetId] else [])
  }

  lemma StillAll(order: seq<nat>, keys: set<nat>)
    requires InOrder(order, keys)
    ensures Still(order, keys) == order
  {
    AllStill(order, keys);
  }

  lemma {:induction false} AllStill(order: seq<nat>, keys: set<nat>)
    requires forall i | 0 <= i < |order| :: order[i] in keys
    ensures Still(order, keys) == order
    decreases |order|
  {
    if order != [] { AllStill(order[..|order| - 1], keys); }
  }

  lemma ParsedForIsValid(body: Bytes, maximum: nat)
    requires ParseFor(body, maximum).Ok?
    ensures ParseFor(body, maximum).value.Valid() && PacketId(body, maximum) == ParseFor(body, maximum).value.packetId
  {
    hide Parse;
    ParsedIsValid(body);
  }

  lemma {:induction false} StillTwice(order: seq<nat>, a: set<nat>, b: set<nat>)
    ensures Still(Still(order, a), b) == Still(order, a * b)
    decreases |order|
  {
    if order != [] {
      var n := |order| - 1;
      StillTwice(order[..n], a, b);
      var first := Still(order[..n], a);
      if order[n] in a {
        assert (first + [order[n]])[..|first|] == first;
        assert Still(first + [order[n]], b) == Still(first, b) + (if order[n] in b then [order[n]] else []);
      } else {
        assert Still(order, a) == first && Still(order, a * b) == Still(order[..n], a * b);
      }
    }
  }

  /** Keys go, and one may come at the end. */
  lemma OrderKept(order: seq<nat>, base: set<nat>, after: set<nat>, packetId: nat)
    requires InOrder(order, base) && after <= base + {packetId}
    ensures InOrder(Still(order, after) + (if packetId in after && packetId !in order then [packetId] else []), after)
    ensures packetId in order <==> packetId in base
  {
    hide Still;
    StillInOrder(order, base, after * base);
    if packetId !in base {
      assert packetId !in order;
      StillWithout(order, after, packetId);
      assert after - {packetId} == after * base;
    } else {
      assert after * base == after;
    }
  }

  lemma KeysInOrder(order: seq<nat>, a: Assemblies)
    requires InOrder(order, a.Keys)
    ensures KeysOf(order, a)
  {
  }

  lemma SomeOrder(order: seq<nat>, keys: set<nat>)
    requires InOrder(order, keys) && |keys| > 0
    ensures order != []
  {
    var id :| id in keys;
  }

  /** The packets that a push keeps before it stores anything. */
  function Base(kept: Assemblies, body: Bytes, maximum: nat, oldest: nat): set<nat> {
    if ParseFor(body, maximum).Ok? && Crowded(kept, ParseFor(body, maximum).value) then kept.Keys - {oldest}
      else kept.Keys
  }

  function PacketId(body: Bytes, maximum: nat): nat {
    match ParseFor(body, maximum)
    case Ok(f) => f.packetId
    case Err(_) => 0
  }

  /** The client's reassembler: a dict, with its order. */
  datatype Ordered = Ordered(assemblies: Assemblies, order: seq<nat>)

  predicate KeysOf(order: seq<nat>, a: Assemblies) {
    forall i | 0 <= i < |order| :: order[i] in a
  }

  /** The assembly that would be given up. */
  ghost function Victim(kept: Assemblies, order: seq<nat>): nat {
    if KeysOf(order, kept) && exists oldest: nat :: FirstOldest(kept, order, oldest) then
      var oldest: nat :| FirstOldest(kept, order, oldest);
      oldest
    else 0
  }

  /** One push, with the order of the dict. */
  ghost function OrderedPush(s: Ordered, body: Bytes, now: nat, maximum: nat)
    : (Ordered, Result<Option<Bytes>, FragmentError>)
  {
    var kept := Expire(s.assemblies, now);
    var order := Still(s.order, kept.Keys);
    var oldest := Victim(kept, order);
    var (after, r) := ClientPush(s.assemblies, body, now, maximum, oldest);
    (Ordered(after, OrderAfter(order, Base(kept, body, maximum, oldest), after.Keys, PacketId(body, maximum))), r)
  }

  /** However the oldest assembly was found, it is the one. */
  lemma PushedInOrder(s: Ordered, body: Bytes, now: nat, maximum: nat, oldest: nat)
    requires var kept := Expire(s.assemblies, now);
             var order := Still(s.order, kept.Keys);
             && KeysOf(order, kept)
             && (ParseFor(body, maximum).Ok? && Crowded(kept, ParseFor(body, maximum).value)
                 ==> FirstOldest(kept, order, oldest))
    ensures var kept := Expire(s.assemblies, now);
            var order := Still(s.order, kept.Keys);
            var (after, r) := ClientPush(s.assemblies, body, now, maximum, oldest);
            OrderedPush(s, body, now, maximum)
            == (Ordered(after, OrderAfter(order, Base(kept, body, maximum, oldest), after.Keys,
                                          PacketId(body, maximum))), r)
  {
    hide StoreOne, ParseFor, FirstOldest, Still, Expire;
    var kept := Expire(s.assemblies, now);
    var order := Still(s.order, kept.Keys);
    if ParseFor(body, maximum).Ok? && Crowded(kept, ParseFor(body, maximum).value) {
      OneIsFirst(kept, order, oldest, Victim(kept, order));
    }
  }

  /** Where the two ends differ: on packets above the client's limit, and on a new packet when 64 are under
      way -- the server refuses it, the client gives up its oldest. Everything else has the same outcome, up
      to the wording of the refusal of a malformed body. */
  lemma EndsReassembleAlike(before: Assemblies, body: Bytes, now: nat, maximum: nat, oldest: nat)
    requires Inv(before)
    requires Parse(body).Ok? ==>
               Parse(body).value.totalLen <= maximum && !Crowded(Expire(before, now), Parse(body).value)
    ensures var (server, a) := PushOne(before, body, now);
            var (client, b) := ClientPush(before, body, now, maximum, oldest);
            && client == server
            && (if Parse(body).Ok? then b == a else a.Err? && b.Err?)
  {
    hide Parse, StoreOne, Inv;
  }

  lemma CountedPut(a: Partials, id: nat, x: Partial)
    ensures Counted(a[id := x]) == Counted(a)[id := AsAssembly(x)]
    ensures Counted(a - {id}) == Counted(a) - {id}
    ensures Counted(a).Keys == a.Keys && |Counted(a)| == |a|
  {
    hide Counted, AsAssembly;
    CountedAssigned(a, id, x);
    CountedRemoved(a, id);
    CountedKeys(a);
  }

  lemma CountedAssigned(a: Partials, id: nat, x: Partial)
    ensures Counted(a[id := x]) == Counted(a)[id := AsAssembly(x)]
  {
    hide AsAssembly;
    assert Counted(a[id := x]).Keys == Counted(a)[id := AsAssembly(x)].Keys;
  }

  lemma CountedRemoved(a: Partials, id: nat)
    ensures Counted(a - {id}) == Counted(a) - {id}
  {
    hide AsAssembly;
    assert Counted(a - {id}).Keys == (Counted(a) - {id}).Keys;
  }

  lemma CountedKeys(a: Partials)
    ensures Counted(a).Keys == a.Keys && |Counted(a)| == |a|
  {
    hide AsAssembly;
    assert Counted(a).Keys == a.Keys;
    assert |Counted(a).Keys| == |Counted(a)| && |a.Keys| == |a|;
  }

  lemma CountedExpires(a: Partials, now: nat)
    ensures Counted(map id | id in a && now < a[id].created + REASSEMBLY_TIMEOUT :: a[id]) == Expire(Counted(a), now)
  {
    hide Total;
    var young := map id | id in a && now < a[id].created + REASSEMBLY_TIMEOUT :: a[id];
    assert Counted(young).Keys == Expire(Counted(a), now).Keys;
  }

  lemma GiveUp(kept: Assemblies, first: nat)
    requires Inv(kept) && first in kept
    ensures Inv(kept - {first}) && |kept - {first}| < MAX_REASSEMBLIES
  {
    hide Inv, Memory;
    MemoryRemove(kept, first);
    InvSize(kept);
    RemoveKeepsInv(kept, first);
  }

  lemma TargetCounted(kept: Partials, f: Fragment, now: nat, x: Partial)
    requires x == if f.packetId in kept then kept[f.packetId] else Partial(f.totalLen, now, map[])
    ensures Target(Counted(kept), f, now) == AsAssembly(x)
  {
    hide Total;
    EmptyTotal(map[]);
  }

  /** What storing needs to know about the assembly the fragment goes to. */
  lemma Stored(a: Assemblies, f: Fragment, now: nat)
    requires Inv(a) && f.Valid() && (f.packetId in a || |a| < MAX_REASSEMBLIES)
    ensures Inv(StoreOne(a, f, now).0) && Memory(a) + |f.data| <= MAX_REASSEMBLY_MEMORY
    ensures var x := Target(a, f, now);
            x.totalLen == f.totalLen && f.offset !in x.fragments
              && !Overlaps(x.fragments, f.offset, f.offset + |f.data|) ==>
              Disjoint(x.fragments[f.offset := f.data], 0, x.totalLen)
  {
    hide Inv, Memory, StoreOne, Disjoint, Total, Overlaps, ValidAssembly, Young;
    StoreOneKeepsInv(a, f, now);
    NoMemoryRefusal(a, f, now);
    TargetValid(a, f, now);
    var x := Target(a, f, now);
    if x.totalLen == f.totalLen && f.offset !in x.fragments && !Overlaps(x.fragments, f.offset, f.offset + |f.data|) {
      StoreKeepsInv(a, f, now);
    }
  }

  lemma PutAgain(a: Partials, id: nat, x: Partial, y: Partial)
    ensures a[id := x] - {id} == a - {id}
    ensures a[id := x][id := y] == a[id := y]
    ensures id in a && x == a[id] ==> a[id := x] == a
  {
    assert (a[id := x] - {id}).Keys == (a - {id}).Keys;
  }

  class ClientReassembler {
    const maximumPacket: nat
    var assemblies: Partials
    /** The keys of `assemblies` as they were inserted; a Python dict keeps them so. */
    var order: seq<nat>

    ghost predicate Valid()
      reads this
    {
      Inv(Counted(assemblies)) && InOrder(order, assemblies.Keys)
    }

    constructor (maximumPacket: nat)
      ensures Valid() && assemblies == map[] && order == [] && this.maximumPacket == maximumPacket
    {
      this.maximumPacket := maximumPacket;
      assemblies := map[];
      order := [];
      new;
      EmptyMemory();
      assert Counted(map[]).Keys == {};
      assert Counted(map[]) == map[];
    }

    /** `min` over the dict by creation time: the first of the oldest. */
    method FindOldest() returns (oldest: nat)
      requires Valid() && order != []
      ensures oldest in assemblies && FirstOldest(Counted(assemblies), order, oldest)
    {
      hide Total, Inv;
      ghost var at: nat := 0;
      oldest := order[0];
      for k := 1 to |order|
        invariant at < k && order[at] == oldest
        invariant forall j | 0 <= j < k :: assemblies[oldest].created <= assemblies[order[j]].created
        invariant forall j | 0 <= j < at :: assemblies[oldest].created < assemblies[order[j]].created
      {
        if assemblies[order[k]].created < assemblies[oldest].created {
          oldest := order[k];
          at := k;
        }
      }
    }

    ghost function Model(): Ordered
      reads this
    {
      Ordered(Counted(assemblies), order)
    }

    method Push(body: Bytes, now: nat) returns (r: Result<Option<Bytes>, FragmentError>)
      requires Valid()
      modifies this
      ensures Valid()
      ensures (Model(), r) == OrderedPush(old(Model()), body, now, maximumPacket)
    {
      hide OrderedPush, ClientPush, Counted, Still, InOrder, Base, OrderAfter, Inv, FirstOldest;
      ghost var before := Model();
      ghost var oldest;
      r, oldest := PushOldest(body, now);
      assert InOrder(Still(before.order, Expire(before.assemblies, now).Keys), Expire(before.assemblies, now).Keys);
      KeysInOrder(Still(before.order, Expire(before.assemblies, now).Keys), Expire(before.assemblies, now));
      PushedInOrder(before, body, now, maximumPacket, oldest);
      CountedPut(assemblies, 0, Partial(0, 0, map[]));
    }

    /** The steps of a push; `oldest` is the assembly it gave up, if it had to. */
    method PushOldest(body: Bytes, now: nat) returns (r: Result<Option<Bytes>, FragmentError>, ghost oldest: nat)
      requires Valid()
      modifies this
      ensures Valid()
      ensures (Counted(assemblies), r) == ClientPush(old(Counted(assemblies)), body, now, maximumPacket, oldest)
      ensures var kept := Expire(old(Counted(assemblies)), now);
              && InOrder(Still(old(order), kept.Keys), kept.Keys)
              && (ParseFor(body, maximumPacket).Ok? && Crowded(kept, ParseFor(body, maximumPacket).value) ==>
                    FirstOldest(kept, Still(old(order), kept.Keys), oldest))
              && order == OrderAfter(Still(old(order), kept.Keys), Base(kept, body, maximumPacket, oldest),
                                     assemblies.Keys, PacketId(body, maximumPacket))
    {
      hide Inv, ParseFor, StoreOne, Expire, Counted, FirstOldest, Still, InOrder, PacketId;
      DropExpired(now);
      ghost var keptOrder := order;
      oldest := 0;
      var parsed := ParseFor(body, maximumPacket);
      CountedPut(assemblies, 0, Partial(0, 0, map[]));
      if parsed.Err? {
        StillAll(order, assemblies.Keys);
        assert assemblies.Keys * assemblies.Keys == assemblies.Keys && assemblies.Keys - assemblies.Keys == {};
        return Err(parsed.error), oldest;
      }
      var fragment := parsed.value;
      ParsedForIsValid(body, maximumPacket);
      oldest := MakeRoom(fragment.packetId);
      ghost var base := assemblies.Keys;
      CountedPut(assemblies, 0, Partial(0, 0, map[]));
      r := Store(fragment, now);
      CountedPut(assemblies, 0, Partial(0, 0, map[]));
      StillTwice(keptOrder, base, assemblies.Keys);
      OrderKept(order, base, assemblies.Keys, fragment.packetId);
      order := Still(order, assemblies.Keys)
               + (if fragment.packetId in assemblies && fragment.packetId !in order then [fragment.packetId] else []);
    }

    method DropExpired(now: nat)
      requires Valid()
      modifies this
      ensures Valid()
      ensures Counted(assemblies) == Expire(old(Counted(assemblies)), now)
      ensures order == Still(old(order), assemblies.Keys)
    {
      hide Inv, Expire, Counted, Still, InOrder;
      ExpireKeepsInv(Counted(assemblies), now);
      CountedExpires(assemblies, now);
      assemblies := map id | id in assemblies && now < assemblies[id].created + REASSEMBLY_TIMEOUT :: assemblies[id];
      StillInOrder(order, old(assemblies).Keys, assemblies.Keys);
      order := Still(order, assemblies.Keys);
    }

    /** Gives up an assembly if a new packet would be one too many. */
    method MakeRoom(packetId: nat) returns (ghost oldest: nat)
      requires Valid()
      modifies this
      ensures Valid() && (packetId in assemblies || |assemblies| < MAX_REASSEMBLIES)
      ensures var kept := old(Counted(assemblies));
              if packetId !in kept && |kept| >= MAX_REASSEMBLIES
              then InOrder(old(order), kept.Keys) && FirstOldest(kept, old(order), oldest)
                && Counted(assemblies) == kept - {oldest}
              else Counted(assemblies) == kept
      ensures order == Still(old(order), assemblies.Keys)
    {
      hide Inv, Counted, FirstOldest, Still;
      oldest := 0;
      CountedPut(assemblies, 0, Partial(0, 0, map[]));
      if packetId !in assemblies && |assemblies| >= MAX_REASSEMBLIES {
        SomeOrder(order, assemblies.Keys);
        var first := FindOldest();
        oldest := first;
        CountedPut(assemblies, first, Partial(0, 0, map[]));
        GiveUp(Counted(assemblies), first);
        StillInOrder(order, assemblies.Keys, assemblies.Keys - {first});
        assemblies := assemblies - {first};
        CountedPut(assemblies, first, Partial(0, 0, map[]));
        order := Still(order, assemblies.Keys);
      } else {
        StillAll(order, assemblies.Keys);
      }
    }

    /** The rest of the push, with a place for the fragment. */
    method Store(fragment: Fragment, now: nat) returns (r: Result<Option<Bytes>, FragmentError>)
      requires Inv(Counted(assemblies)) && fragment.Valid()
      requires fragment.packetId in assemblies || |assemblies| < MAX_REASSEMBLIES
      modifies `assemblies
      ensures Inv(Counted(assemblies)) && assemblies.Keys <= old(assemblies.Keys) + {fragment.packetId}
      ensures (Counted(assemblies), r) == StoreOne(old(Counted(assemblies)), fragment, now)
    {
      hide Inv, Memory, Disjoint, Total, Flatten, Overlaps, Counted, ValidAssembly, Young;
      ghost var kept := assemblies;
      var id := fragment.packetId;
      CountedPut(kept, id, Partial(fragment.totalLen, now, map[]));
      if id !in assemblies {
        assemblies := assemblies[id := Partial(fragment.totalLen, now, map[])];
      }
      var x := assemblies[id];
      TargetCounted(kept, fragment, now, x);
      Stored(Counted(kept), fragment, now);
      CountedPut(kept, id, x);
      PutAgain(kept, id, x, x.(parts := x.parts[fragment.offset := fragment.data]));
      if x.total != fragment.totalLen {
        assemblies := assemblies - {id};
        return Err(TotalChanged);
      }
      if fragment.offset in x.parts {
        if x.parts[fragment.offset] == fragment.data {
          return Ok(None);
        }
        assemblies := assemblies - {id};
        return Err(Conflicting);
      }
      if Overlaps(x.parts, fragment.offset, fragment.offset + |fragment.data|) {
        assemblies := assemblies - {id};
        return Err(Overlapping);
      }
      var grown := x.(parts := x.parts[fragment.offset := fragment.data]);
      TotalAdd(x.parts, fragment.offset, fragment.data);
      CountedPut(kept, id, grown);
      assemblies := assemblies[id := grown];
      PutAgain(kept, id, grown, grown);
      var sum := SumOf(grown.parts);
      if sum != fragment.totalLen {
        return Ok(None);
      }
      var packet := Assemble(Assembly(grown.total, grown.created, grown.parts, sum));
      assemblies := assemblies - {id};
      return Ok(Some(packet));
    }

    static method SumOf(parts: Pieces) returns (sum: nat)
      ensures sum == Total(parts)
    {
      hide Total;
      sum := 0;
      var rest := parts;
      while rest.Keys != {}
        invariant Total(parts) == sum + Total(rest)
        decreases |rest|
      {
        var offset :| offset in rest.Keys;
        TotalRemove(rest, offset);
        sum := sum + |rest[offset]|;
        rest := rest - {offset};
      }
      EmptyTotal(rest);
    }
  }
}
