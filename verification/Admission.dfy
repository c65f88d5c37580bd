/** The admission limiter: at most 60 attempts per source in any 60 seconds, for at most 8192 sources.
    Times are nanoseconds on the monotonic clock. */
module Admission {
  import opened Prelude

  const WINDOW: nat := 60_000_000_000
  const PER_SOURCE: nat := 60
  const SOURCES: nat := 8192

  datatype Refusal = TableFull | RateExceeded

  type Source = nat
  type Table = map<Source, seq<nat>>

  /** Not before the cutoff: 60 s ago counts. */
  predicate Recent(seen: nat, now: nat) {
    seen + WINDOW >= now
  }

  function Kept(rates: Table, now: nat): Table {
    map s | s in rates && rates[s] != [] && Recent(rates[s][|rates[s]| - 1], now) :: rates[s]
  }

  /** Drops the leading attempts that are too old. */
  function Pruned(attempts: seq<nat>, now: nat): seq<nat> {
    if attempts != [] && !Recent(attempts[0], now) then Pruned(attempts[1..], now) else attempts
  }

  function Attempts(rates: Table, source: Source): seq<nat> {
    if source in rates then rates[source] else []
  }

  function Check(rates: Table, source: Source, now: nat): (Table, Result<(), Refusal>) {
    var kept := Kept(rates, now);
    if |kept| >= SOURCES && source !in kept then (kept, Err(TableFull))
    else
      var attempts := Pruned(Attempts(kept, source), now);
      if |attempts| >= PER_SOURCE then (kept[source := attempts], Err(RateExceeded))
      else (kept[source := attempts + [now]], Ok(()))
  }

  // ---- Whole runs ----

  datatype Call = Call(source: Source, now: nat)

  predicate Monotone(calls: seq<Call>) {
    forall i, j | 0 <= i < j < |calls| :: calls[i].now <= calls[j].now
  }

  function After(calls: seq<Call>): Table
    decreases |calls|
  {
    if calls == [] then map[]
    else
      var last := calls[|calls| - 1];
      Check(After(calls[..|calls| - 1]), last.source, last.now).0
  }

  function Outcome(calls: seq<Call>, i: nat): Result<(), Refusal>
    requires i < |calls|
  {
    Check(After(calls[..i]), calls[i].source, calls[i].now).1
  }

  /** The history that the table stands for: when attempts of this source were accepted. */
  function Accepted(calls: seq<Call>, source: Source): seq<nat>
    decreases |calls|
  {
    if calls == [] then []
    else
      var n := |calls| - 1;
      Accepted(calls[..n], source)
      + if calls[n].source == source && Outcome(calls, n).Ok? then [calls[n].now] else []
  }

  function InWindow(times: seq<nat>, now: nat): seq<nat> {
    if times == [] then []
    else
      var n := |times| - 1;
      InWindow(times[..n], now) + if Recent(times[n], now) then [times[n]] else []
  }

  predicate Increasing(times: seq<nat>) {
    forall i, j | 0 <= i < j < |times| :: times[i] <= times[j]
  }

  predicate UpTo(times: seq<nat>, now: nat) {
    forall t | t in times :: t <= now
  }

  /** Between the calls the table holds, for each source, a tail of its history; what it lacks is too old at
      the time of the last call, and so ever after. */
  ghost predicate Tail(history: seq<nat>, held: seq<nat>, now: nat) {
    exists k: nat :: TailAt(history, held, now, k)
  }

  predicate TailAt(history: seq<nat>, held: seq<nat>, now: nat, k: nat) {
    k <= |history| && held == history[k..] && forall i | 0 <= i < k :: !Recent(history[i], now)
  }

  ghost predicate Remembers(rates: Table, calls: seq<Call>, now: nat) {
    && |rates| <= SOURCES
    && forall s: Source ::
         && Increasing(Accepted(calls, s)) && UpTo(Accepted(calls, s), now)
         && Tail(Accepted(calls, s), Attempts(rates, s), now)
         && |Attempts(rates, s)| <= PER_SOURCE
  }

  lemma {:induction false} WindowOfTail(history: seq<nat>, now: nat, k: nat)
    requires k <= |history| && Increasing(history) && (forall i | 0 <= i < k :: !Recent(history[i], now))
    requires k < |history| ==> Recent(history[k], now)
    ensures InWindow(history, now) == history[k..]
    decreases |history|
  {
    hide Recent;
    if history != [] {
      var n := |history| - 1;
      if k <= n {
        StillRecent(history, now, k, n);
        WindowOfTail(history[..n], now, k);
        assert history[k..] == history[..n][k..] + [history[n]];
      } else {
        WindowOfTail(history[..n], now, n);
        assert history[..n][n..] == [] && history[k..] == [];
      }
    }
  }

  lemma StillRecent(history: seq<nat>, now: nat, k: nat, n: nat)
    requires Increasing(history) && k <= n < |history| && Recent(history[k], now)
    ensures Recent(history[n], now)
  {
  }

  lemma {:induction false} PrunedTail(attempts: seq<nat>, now: nat) returns (k: nat)
    ensures TailAt(attempts, Pruned(attempts, now), now, k)
    ensures k < |attempts| ==> Recent(attempts[k], now)
  {
    if attempts != [] && !Recent(attempts[0], now) {
      var m := PrunedTail(attempts[1..], now);
      k := m + 1;
      forall i | 0 <= i < k
        ensures !Recent(attempts[i], now)
      {
        if i > 0 { assert attempts[i] == attempts[1..][i - 1]; }
      }
      if k < |attempts| { assert attempts[k] == attempts[1..][m]; }
      assert attempts[1..][m..] == attempts[k..];
    } else {
      k := 0;
    }
  }

  lemma TailOfTail(history: seq<nat>, held: seq<nat>, before: nat, now: nat, k: nat, rest: seq<nat>, m: nat)
    requires TailAt(history, held, before, k) && before <= now && TailAt(held, rest, now, m)
    ensures TailAt(history, rest, now, k + m)
  {
    forall i | 0 <= i < k + m
      ensures !Recent(history[i], now)
    {
      if i >= k { assert history[i] == held[i - k]; }
    }
    assert history[k..][m..] == history[k + m..];
  }

  /** Pruning a tail of the history leaves exactly the attempts of the last 60 s. */
  lemma PrunedIsWindow(history: seq<nat>, held: seq<nat>, before: nat, now: nat)
    requires Increasing(history) && Tail(history, held, before) && before <= now
    ensures Pruned(held, now) == InWindow(history, now)
    ensures Tail(history, Pruned(held, now), now)
  {
    hide Pruned, InWindow, Recent;
    var k: nat :| TailAt(history, held, before, k);
    var m := PrunedTail(held, now);
    TailOfTail(history, held, before, now, k, Pruned(held, now), m);
    if m < |held| { assert history[k + m] == held[m]; }
    WindowOfTail(history, now, k + m);
  }

  /** Dropping sources whose last attempt is too old forgets nothing that counts. */
  lemma KeptTail(rates: Table, history: seq<nat>, s: Source, before: nat, now: nat)
    requires Increasing(history) && Tail(history, Attempts(rates, s), before) && before <= now
    ensures Tail(history, Attempts(Kept(rates, now), s), now)
    ensures |Attempts(Kept(rates, now), s)| <= |Attempts(rates, s)|
  {
    var held := Attempts(rates, s);
    var k: nat :| TailAt(history, held, before, k);
    if s in Kept(rates, now) {
      assert TailAt(history, held, now, k);
    } else {
      forall i | 0 <= i < |history|
        ensures !Recent(history[i], now)
      {
        if i >= k { assert history[i] == held[i - k] <= held[|held| - 1]; }
      }
      assert TailAt(history, [], now, |history|);
    }
  }

  lemma KeptSize(rates: Table, now: nat)
    ensures Kept(rates, now).Keys <= rates.Keys && |Kept(rates, now)| <= |rates|
  {
    assert Kept(rates, now).Keys <= rates.Keys;
    SubsetSize(Kept(rates, now).Keys, rates.Keys);
  }

  /** What one call does to the history of each source. */
  lemma AcceptedStep(calls: seq<Call>, c: Call, s: Source)
    ensures var r := Check(After(calls), c.source, c.now).1;
            && Accepted(calls + [c], s) == Accepted(calls, s) + (if c.source == s && r.Ok? then [c.now] else [])
            && After(calls + [c]) == Check(After(calls), c.source, c.now).0
            && Outcome(calls + [c], |calls|) == r
  {
    hide Check;
    assert (calls + [c])[..|calls|] == calls;
  }

  lemma UpToLater(times: seq<nat>, before: nat, now: nat)
    requires UpTo(times, before) && before <= now
    ensures UpTo(times, now)
  {
  }

  lemma AppendTail(history: seq<nat>, held: seq<nat>, now: nat)
    requires Tail(history, held, now) && Increasing(history) && UpTo(history, now)
    ensures Tail(history + [now], held + [now], now) && Increasing(history + [now]) && UpTo(history + [now], now)
  {
    hide Recent;
    var k: nat :| TailAt(history, held, now, k);
    assert (history + [now])[k..] == held + [now];
    assert TailAt(history + [now], held + [now], now, k);
    assert forall i | 0 <= i < |history| :: history[i] in history;
  }

  /** One source across one call. */
  lemma SourceRemembered(rates: Table, history: seq<nat>, s: Source, before: nat, source: Source, now: nat)
    requires Increasing(history) && UpTo(history, before) && before <= now
    requires Tail(history, Attempts(rates, s), before) && |Attempts(rates, s)| <= PER_SOURCE
    ensures var (rates1, r) := Check(rates, source, now);
            var history1 := history + if s == source && r.Ok? then [now] else [];
            && Increasing(history1) && UpTo(history1, now)
            && Tail(history1, Attempts(rates1, s), now) && |Attempts(rates1, s)| <= PER_SOURCE
  {
    hide Pruned, Kept, Tail, Increasing, UpTo;
    var kept := Kept(rates, now);
    KeptTail(rates, history, s, before, now);
    UpToLater(history, before, now);
    assert history + [] == history;
    if s == source {
      PrunedIsWindow(history, Attempts(kept, s), now, now);
      PrunedShorter(Attempts(kept, s), now);
      AppendTail(history, Pruned(Attempts(kept, s), now), now);
    }
  }

  lemma {:induction false} PrunedShorter(attempts: seq<nat>, now: nat)
    ensures |Pruned(attempts, now)| <= |attempts|
  {
    if attempts != [] { PrunedShorter(attempts[1..], now); }
  }

  lemma CheckRemembers(calls: seq<Call>, before: nat, c: Call)
    requires Remembers(After(calls), calls, before) && before <= c.now
    ensures Remembers(After(calls + [c]), calls + [c], c.now)
  {
    hide Check, Tail, Increasing, UpTo, After, Accepted, Attempts;
    forall s: Source
      ensures Increasing(Accepted(calls + [c], s)) && UpTo(Accepted(calls + [c], s), c.now)
      ensures Tail(Accepted(calls + [c], s), Attempts(After(calls + [c]), s), c.now)
      ensures |Attempts(After(calls + [c]), s)| <= PER_SOURCE
    {
      AcceptedStep(calls, c, s);
      SourceRemembered(After(calls), Accepted(calls, s), s, before, c.source, c.now);
    }
    AcceptedStep(calls, c, 0);
    CheckSize(After(calls), c.source, c.now);
  }

  lemma CheckSize(rates: Table, source: Source, now: nat)
    requires |rates| <= SOURCES
    ensures |Check(rates, source, now).0| <= SOURCES
  {
    hide Kept;
    KeptSize(rates, now);
    var kept := Kept(rates, now);
    var attempts := Pruned(Attempts(kept, source), now);
    PutSize(kept, source, attempts);
    PutSize(kept, source, attempts + [now]);
  }

  lemma PutSize(rates: Table, source: Source, attempts: seq<nat>)
    ensures |rates[source := attempts]| == |rates| + (if source in rates then 0 else 1)
  {
    assert rates[source := attempts].Keys == rates.Keys + {source};
  }

  /** On a monotone clock, after any calls: the table has at most 8192 sources and remembers, of each, every
      accepted attempt that is younger than 60 s. */
  lemma {:induction false} RunRemembers(calls: seq<Call>)
    requires Monotone(calls)
    ensures Remembers(After(calls), calls, if calls == [] then 0 else calls[|calls| - 1].now)
    decreases |calls|
  {
    hide Remembers, After;
    if calls == [] {
      NothingRemembered();
    } else {
      var n := |calls| - 1;
      RunRemembers(calls[..n]);
      CheckRemembers(calls[..n], if n == 0 then 0 else calls[n - 1].now, calls[n]);
      assert calls[..n] + [calls[n]] == calls;
    }
  }

  lemma NothingRemembered()
    ensures Remembers(After([]), [], 0)
  {
    forall s: Source
      ensures Tail(Accepted([], s), Attempts(After([]), s), 0)
    {
      assert TailAt([], [], 0, 0);
    }
  }

  // ---- Refusals ----

  lemma {:induction false} WindowEmpty(times: seq<nat>, now: nat)
    requires Increasing(times)
    ensures InWindow(times, now) == [] <==> times == [] || !Recent(times[|times| - 1], now)
    decreases |times|
  {
    if times != [] { WindowEmpty(times[..|times| - 1], now); }
  }

  /** The sources that are kept are those with an accepted attempt in the last 60 s. */
  lemma KeptMeans(rates: Table, history: seq<nat>, s: Source, before: nat, now: nat)
    requires Increasing(history) && Tail(history, Attempts(rates, s), before) && before <= now
    ensures s in Kept(rates, now) <==> InWindow(history, now) != []
  {
    hide InWindow;
    var held := Attempts(rates, s);
    var k: nat :| TailAt(history, held, before, k);
    WindowEmpty(history, now);
    if held != [] {
      assert held[|held| - 1] == history[|history| - 1];
    } else if history != [] {
      assert !Recent(history[|history| - 1], before);
    }
  }

  /** The sources with an accepted attempt in the last 60 s. */
  ghost predicate Active(sources: set<Source>, calls: seq<Call>, now: nat) {
    forall s: Source :: s in sources <==> InWindow(Accepted(calls, s), now) != []
  }

  /** Exactly when a call is refused, in terms of the history alone: 60 accepted attempts of this source in
      the last 60 s, or 8192 other sources with one. */
  lemma RefusedIff(calls: seq<Call>, c: Call)
    requires Monotone(calls + [c])
    ensures var r := Outcome(calls + [c], |calls|);
            var active := Kept(After(calls), c.now).Keys;
            && Active(active, calls, c.now)
            && (r == Err(TableFull) <==> |active| == SOURCES && c.source !in active)
            && (r == Err(RateExceeded) <==> |InWindow(Accepted(calls, c.source), c.now)| == PER_SOURCE)
            && |InWindow(Accepted(calls, c.source), c.now)| <= PER_SOURCE
  {
    hide Check, Tail, Increasing, UpTo, After, Accepted, InWindow, Kept;
    var before := if calls == [] then 0 else calls[|calls| - 1].now;
    assert before <= c.now by {
      if calls != [] { assert (calls + [c])[|calls| - 1] == calls[|calls| - 1] && (calls + [c])[|calls|] == c; }
    }
    MonotonePrefix(calls, c);
    RunRemembers(calls);
    AcceptedStep(calls, c, 0);
    var rates := After(calls);
    forall s: Source
      ensures s in Kept(rates, c.now) <==> InWindow(Accepted(calls, s), c.now) != []
    {
      KeptMeans(rates, Accepted(calls, s), s, before, c.now);
    }
    KeptTail(rates, Accepted(calls, c.source), c.source, before, c.now);
    var held := Attempts(Kept(rates, c.now), c.source);
    PrunedIsWindow(Accepted(calls, c.source), held, c.now, c.now);
    PrunedShorter(held, c.now);
    KeptSize(rates, c.now);
    CheckMeans(rates, c.source, c.now);
  }

  lemma MonotonePrefix(calls: seq<Call>, c: Call)
    requires Monotone(calls + [c])
    ensures Monotone(calls)
  {
    forall i, j | 0 <= i < j < |calls|
      ensures calls[i].now <= calls[j].now
    {
      assert (calls + [c])[i] == calls[i] && (calls + [c])[j] == calls[j];
    }
  }

  lemma CheckMeans(rates: Table, source: Source, now: nat)
    ensures var kept := Kept(rates, now);
            var count := |Pruned(Attempts(kept, source), now)|;
            var r := Check(rates, source, now).1;
            && (r == Err(TableFull) <==> |kept| >= SOURCES && source !in kept)
            && (r == Err(RateExceeded) <==> !(|kept| >= SOURCES && source !in kept) && count >= PER_SOURCE)
            && (source !in kept ==> count == 0)
            && |kept| == |kept.Keys|
  {
    hide Kept;
  }

  // ---- The limit ----

  /** The times in the closed window of 60 s that starts at `from`. */
  function Between(times: seq<nat>, from: nat): seq<nat> {
    if times == [] then []
    else
      var n := |times| - 1;
      Between(times[..n], from) + if from <= times[n] <= from + WINDOW then [times[n]] else []
  }

  lemma {:induction false} BetweenFewer(times: seq<nat>, from: nat, now: nat)
    requires from <= now <= from + WINDOW
    ensures |Between(times, from)| <= |InWindow(times, now)|
    decreases |times|
  {
    if times != [] { BetweenFewer(times[..|times| - 1], from, now); }
  }

  /** On a monotone clock every closed window of 60 s, wherever it starts, holds at most 60 accepted attempts
      of a source. */
  lemma {:induction false} AtMostSixty(calls: seq<Call>, source: Source, from: nat)
    requires Monotone(calls)
    ensures |Between(Accepted(calls, source), from)| <= PER_SOURCE
    decreases |calls|
  {
    hide Outcome, InWindow;
    if calls != [] {
      var n := |calls| - 1;
      var c := calls[n];
      assert calls[..n] + [c] == calls;
      AtMostSixty(calls[..n], source, from);
      var history := Accepted(calls[..n], source);
      assert history + [] == history;
      if c.source == source && Outcome(calls, n).Ok? {
        RefusedIff(calls[..n], c);
        assert Outcome(calls[..n] + [c], |calls[..n]|) == Outcome(calls, n);
        assert (history + [c.now])[..|history|] == history;
        if from <= c.now <= from + WINDOW { BetweenFewer(history, from, c.now); }
      }
    }
  }

  // ---- The object ----

  class Limiter {
    var rates: Table

    constructor ()
      ensures rates == After([])
    {
      rates := map[];
    }

    method CheckAdmissionRate(source: Source, now: nat) returns (r: Result<(), Refusal>)
      modifies this
      ensures (rates, r) == Check(old(rates), source, now)
    {
      hide Recent;
      rates := map s | s in rates && rates[s] != [] && Recent(rates[s][|rates[s]| - 1], now) :: rates[s];
      assert rates == Kept(old(rates), now);
      if |rates| >= SOURCES && source !in rates {
        return Err(TableFull);
      }
      var attempts := if source in rates then rates[source] else [];
      ghost var before := attempts;
      while attempts != [] && !Recent(attempts[0], now)
        invariant Pruned(attempts, now) == Pruned(before, now)
        decreases |attempts|
      {
        attempts := attempts[1..];
      }
      if |attempts| >= PER_SOURCE {
        rates := rates[source := attempts];
        return Err(RateExceeded);
      }
      rates := rates[source := attempts + [now]];
      return Ok(());
    }
  }
}
