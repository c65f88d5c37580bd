/** Number allocation in `RecordSender::seal`, as interleaved steps of several threads: an atomic
    fetch-and-add, and, when the number is past the limit, a separate store that pins the counter. */
module RecordSender {
  import opened Prelude
  import opened Record

  /** The most threads for which no interleaving reuses a number. */
  const SAFE_THREADS: nat := U64_LIMIT - MAX_RECORDS_PER_EPOCH

  datatype Event = FetchAdd(thread: nat) | Store(thread: nat)

  /** `storing` holds the threads that drew a number past the limit and have not stored yet;
      `issued` lists the numbers that went into records, in order. */
  datatype State = State(next: nat, storing: set<nat>, issued: seq<nat>)

  const INITIAL := State(0, {}, [])

  /** One step of one of `threads` threads; None when that thread cannot take it now. */
  function Step(threads: nat, s: State, e: Event): Option<State> {
    match e
    case FetchAdd(t) =>
      if t >= threads || t in s.storing then None
      else
        var bumped := (s.next + 1) % U64_LIMIT;
        if s.next < MAX_RECORDS_PER_EPOCH then Some(State(bumped, s.storing, s.issued + [s.next]))
        else Some(State(bumped, s.storing + {t}, s.issued))
    case Store(t) =>
      if t !in s.storing then None
      else Some(State(MAX_RECORDS_PER_EPOCH, s.storing - {t}, s.issued))
  }

  function Run(threads: nat, s: State, events: seq<Event>): Option<State>
    decreases |events|
  {
    if events == [] then Some(s)
    else match Step(threads, s, events[0])
      case None => None
      case Some(s1) => Run(threads, s1, events[1..])
  }

  function Ids(threads: nat): (ids: set<nat>)
    ensures forall t: nat :: t in ids <==> t < threads
    ensures |ids| == threads
  {
    if threads == 0 then {} else Ids(threads - 1) + {threads - 1}
  }

  ghost predicate Inv(threads: nat, s: State) {
    && s.storing <= Ids(threads)
    && |s.issued| <= MAX_RECORDS_PER_EPOCH
    && (forall i | 0 <= i < |s.issued| :: s.issued[i] == i)
    && if |s.issued| < MAX_RECORDS_PER_EPOCH
       then s.next == |s.issued| && s.storing == {}
       else
         || MAX_RECORDS_PER_EPOCH <= s.next <= MAX_RECORDS_PER_EPOCH + |s.storing|
         || s.storing == Ids(threads)
  }

  lemma StepKeepsInv(threads: nat, s: State, e: Event)
    requires threads <= SAFE_THREADS && Inv(threads, s) && Step(threads, s, e).Some?
    ensures Inv(threads, Step(threads, s, e).value)
  {
    var s1 := Step(threads, s, e).value;
    match e
    case FetchAdd(t) =>
      assert t in Ids(threads);
      SubsetSize(s.storing, Ids(threads));
      if |s.issued| == MAX_RECORDS_PER_EPOCH {
        assert s1.storing == s.storing + {t};
        SubsetSize(s1.storing, Ids(threads));
      }
    case Store(t) =>
  }

  lemma {:induction false} RunKeepsInv(threads: nat, s: State, events: seq<Event>)
    requires threads <= SAFE_THREADS && Inv(threads, s) && Run(threads, s, events).Some?
    ensures Inv(threads, Run(threads, s, events).value)
    decreases |events|
  {
    if events != [] {
      StepKeepsInv(threads, s, events[0]);
      RunKeepsInv(threads, Step(threads, s, events[0]).value, events[1..]);
    }
  }

  /** Whatever the interleaving, the numbers put into records are 0, 1, 2, ... without a gap or a
      repetition, and all of them are below the limit. */
  lemma IssuedNumbersAreDistinct(threads: nat, events: seq<Event>)
    requires threads <= SAFE_THREADS
    requires Run(threads, INITIAL, events).Some?
    ensures var issued := Run(threads, INITIAL, events).value.issued;
            && |issued| <= MAX_RECORDS_PER_EPOCH
            && forall i | 0 <= i < |issued| :: issued[i] == i
  {
    RunKeepsInv(threads, INITIAL, events);
  }

  // ---- The bound on threads is exact ----

  lemma {:induction false} RunConcat(threads: nat, s: State, a: seq<Event>, b: seq<Event>)
    requires Run(threads, s, a).Some?
    ensures Run(threads, s, a + b) == Run(threads, Run(threads, s, a).value, b)
    decreases |a|
  {
    if a == [] {
      assert a + b == b;
    } else {
      assert (a + b)[1..] == a[1..] + b;
      RunConcat(threads, Step(threads, s, a[0]).value, a[1..], b);
    }
  }

  /** One thread alone issues the first `n` numbers. */
  lemma {:induction false} IssueSome(threads: nat, n: nat) returns (events: seq<Event>)
    requires threads > 0 && n <= MAX_RECORDS_PER_EPOCH
    ensures Run(threads, INITIAL, events) == Some(State(n, {}, seq(n, i => i)))
  {
    if n == 0 {
      events := [];
      assert seq(0, i => i) == [];
    } else {
      var shorter := IssueSome(threads, n - 1);
      events := shorter + [FetchAdd(0)];
      RunConcat(threads, INITIAL, shorter, [FetchAdd(0)]);
      var s := Run(threads, INITIAL, shorter).value;
      assert s.issued + [n - 1] == seq(n, i => i);
      RunOne(threads, s, FetchAdd(0));
    }
  }

  /** A full epoch after `k` threads drew past the limit and stopped just before their stores. */
  function Overdrawn(k: nat, issued: seq<nat>): State {
    State(if k < SAFE_THREADS then MAX_RECORDS_PER_EPOCH + k else 0, Ids(k), issued)
  }

  lemma OverdrawOne(threads: nat, k: nat, issued: seq<nat>)
    requires k < threads && k < SAFE_THREADS
    ensures Step(threads, Overdrawn(k, issued), FetchAdd(k)) == Some(Overdrawn(k + 1, issued))
  {
  }

  lemma RunOne(threads: nat, s: State, e: Event)
    ensures Run(threads, s, [e]) == Step(threads, s, e)
  {
    match Step(threads, s, e)
    case None =>
    case Some(s1) => assert Run(threads, s1, [e][1..]) == Some(s1);
  }

  lemma {:induction false} OverdrawSome(threads: nat, k: nat, issued: seq<nat>) returns (events: seq<Event>)
    requires k <= threads && k <= SAFE_THREADS
    ensures Run(threads, Overdrawn(0, issued), events) == Some(Overdrawn(k, issued))
  {
    if k == 0 {
      events := [];
    } else {
      var shorter := OverdrawSome(threads, k - 1, issued);
      events := shorter + [FetchAdd(k - 1)];
      RunConcat(threads, Overdrawn(0, issued), shorter, [FetchAdd(k - 1)]);
      OverdrawOne(threads, k - 1, issued);
      RunOne(threads, Overdrawn(k - 1, issued), FetchAdd(k - 1));
    }
  }

  /** With more threads than the bound the 64-bit counter can wrap and number 0 is issued twice. */
  lemma MoreThreadsRepeatZero(threads: nat) returns (events: seq<Event>)
    requires threads > SAFE_THREADS
    ensures Run(threads, INITIAL, events).Some?
    ensures var issued := Run(threads, INITIAL, events).value.issued;
            |issued| > MAX_RECORDS_PER_EPOCH && issued[0] == 0 && issued[MAX_RECORDS_PER_EPOCH] == 0
  {
    var all := seq(MAX_RECORDS_PER_EPOCH, i => i);
    assert all[0] == 0;
    var filling := IssueSome(threads, MAX_RECORDS_PER_EPOCH);
    var overdraw := OverdrawSome(threads, SAFE_THREADS, all);
    var last := FetchAdd(SAFE_THREADS);
    var full := Overdrawn(0, all);
    RunConcat(threads, full, overdraw, [last]);
    RunOne(threads, Overdrawn(SAFE_THREADS, all), last);
    RunConcat(threads, INITIAL, filling, overdraw + [last]);
    events := filling + (overdraw + [last]);
  }

  ghost predicate AllDiffer(issued: seq<nat>) {
    forall i, j | 0 <= i < j < |issued| :: issued[i] != issued[j]
  }

  /** No interleaving ever issues a number twice if and only if there are at most 2^64 - 2^32 threads. */
  lemma NeverRepeatsIff(threads: nat)
    ensures (forall events | Run(threads, INITIAL, events).Some? ::
             AllDiffer(Run(threads, INITIAL, events).value.issued))
            <==> threads <= SAFE_THREADS
  {
    if threads <= SAFE_THREADS {
      forall events | Run(threads, INITIAL, events).Some?
        ensures AllDiffer(Run(threads, INITIAL, events).value.issued)
      {
        IssuedNumbersAreDistinct(threads, events);
      }
    } else {
      var events := MoreThreadsRepeatZero(threads);
      assert !AllDiffer(Run(threads, INITIAL, events).value.issued);
    }
  }
}
