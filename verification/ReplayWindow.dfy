/** The sliding replay window of the record layer (section 2 of RFC 6479): the Rust window and the
    Python window, both proved to refine a plain set of accepted numbers. */
module ReplayWindow {

  const U64_MAX: nat := 0xFFFF_FFFF_FFFF_FFFF
  const DEFAULT_REPLAY_WINDOW: nat := 4096

  predicate ValidWidth(width: nat) {
    256 <= width <= 16384 && width % 64 == 0
  }

  /** A 64-bit word, as its bits: bit `i` is the one selected by the mask `1 << i`. */
  type Word = w: seq<bool> | |w| == 64 witness seq(64, _ => false)

  const ZERO: Word := seq(64, _ => false)

  /** What a window means: the numbers accepted so far and the highest of them. */
  datatype Window = Window(width: nat, highest: nat, seen: set<nat>) {
    ghost predicate Valid() {
      && ValidWidth(width)
      && (seen != {} ==> highest in seen)
      && (forall n | n in seen :: n <= highest)
    }

    /** A number is fresh when it is ahead of the window, or inside it and not yet seen. */
    predicate Fresh(number: nat) {
      seen == {} || number > highest || (number + width > highest && number !in seen)
    }

    /** The Rust test, with its saturating 64-bit addition. */
    predicate Plausible(number: nat) {
      if seen == {} then true
      else if SaturatingAdd(number, width) <= highest then false
      else number > highest || number !in seen
    }

    function Add(number: nat): Window {
      Window(width, if seen == {} || number > highest then number else highest, seen + {number})
    }

    /** Commits a number that the receiver authenticated; refuses and changes nothing otherwise. */
    function Commit(number: nat): (Window, bool) {
      if Plausible(number) then (Add(number), true) else (this, false)
    }

    /** The least number above everything accepted so far. */
    function Next(): nat {
      if seen == {} then 0 else highest + 1
    }
  }

  function Empty(width: nat): Window {
    Window(width, 0, {})
  }

  function SaturatingAdd(a: nat, b: nat): nat {
    if a + b > U64_MAX then U64_MAX else a + b
  }

  /** The Rust test is freshness, except that a window whose highest number is 2^64 - 1 refuses
      everything: there the saturated sum never exceeds `highest`. */
  lemma PlausibleIsFresh(w: Window, number: nat)
    requires w.Valid() && w.highest <= U64_MAX && number <= U64_MAX
    ensures w.Plausible(number) <==> w.Fresh(number) && (w.seen == {} || w.highest < U64_MAX)
    ensures w.seen != {} && w.highest == U64_MAX ==> !w.Plausible(number)
  {
  }

  /** The two windows part company only at the very top of the number space. */
  lemma SaturationRefusesFreshNumber()
    ensures exists w: Window, number: nat ::
      w.Valid() && w.highest <= U64_MAX && number <= U64_MAX && w.Fresh(number) && !w.Plausible(number)
  {
    var w := Window(4096, U64_MAX, {U64_MAX});
    assert w.Valid() && w.Fresh(U64_MAX - 1) && !w.Plausible(U64_MAX - 1);
  }

  // ---- Sequences of commits ----

  /** Commits every number in turn and keeps those that were accepted. */
  function CommitAll(w: Window, numbers: seq<nat>): (Window, seq<nat>)
    decreases |numbers|
  {
    if numbers == [] then (w, [])
    else
      var (w1, accepted) := w.Commit(numbers[0]);
      var (w2, rest) := CommitAll(w1, numbers[1..]);
      (w2, if accepted then [numbers[0]] + rest else rest)
  }

  /** Whatever arrives and in whatever order, no number is accepted twice, nothing accepted before
      is accepted again, and the window remembers exactly what it accepted. */
  lemma {:induction false} NoNumberAcceptedTwice(w: Window, numbers: seq<nat>)
    requires w.Valid()
    ensures CommitAll(w, numbers).0.Valid()
    ensures var accepted := CommitAll(w, numbers).1;
            && (forall i, j | 0 <= i < j < |accepted| :: accepted[i] != accepted[j])
            && (forall i | 0 <= i < |accepted| :: accepted[i] !in w.seen)
            && CommitAll(w, numbers).0.seen == w.seen + (set i | 0 <= i < |accepted| :: accepted[i])
    decreases |numbers|
  {
    if numbers != [] {
      hide Window.Plausible;
      var (w1, ok) := w.Commit(numbers[0]);
      CommitMeans(w, numbers[0]);
      NoNumberAcceptedTwice(w1, numbers[1..]);
      var (_, rest) := CommitAll(w1, numbers[1..]);
      if ok {
        OneMoreAccepted(w.seen, numbers[0], rest);
      }
    }
  }

  lemma CommitMeans(w: Window, number: nat)
    requires w.Valid()
    ensures var (w1, ok) := w.Commit(number);
            w1.Valid() && if ok then number !in w.seen && w1.seen == w.seen + {number} else w1 == w
  {
  }

  /** What was accepted, with one number in front. */
  lemma OneMoreAccepted(seen: set<nat>, number: nat, rest: seq<nat>)
    requires number !in seen
    requires forall i, j | 0 <= i < j < |rest| :: rest[i] != rest[j]
    requires forall i | 0 <= i < |rest| :: rest[i] !in seen + {number}
    ensures var accepted := [number] + rest;
            && (forall i, j | 0 <= i < j < |accepted| :: accepted[i] != accepted[j])
            && (forall i | 0 <= i < |accepted| :: accepted[i] !in seen)
            && seen + {number} + (set i | 0 <= i < |rest| :: rest[i])
               == seen + (set i | 0 <= i < |accepted| :: accepted[i])
  {
    var accepted := [number] + rest;
    assert forall i | 0 <= i < |rest| :: rest[i] == accepted[i + 1];
    assert accepted[0] == number;
  }

  // ---- The bitmap ----

  function Offset(number: nat, width: nat): nat
    requires width > 0
  {
    number % width
  }

  predicate Bit(bits: seq<Word>, offset: nat)
    requires offset < 64 * |bits|
  {
    bits[offset / 64][offset % 64]
  }

  /** The ring bitmap stands for the window: the bit of every number in reach says whether that number
      was seen, and all bits are clear before the first commit. */
  ghost predicate Represents(w: Window, bits: seq<Word>) {
    && w.Valid()
    && 64 * |bits| == w.width
    && (w.seen == {} ==> forall o: nat | o < w.width :: !Bit(bits, o))
    && (w.seen != {} ==> RingMatches(bits, w.width, w.highest, w.seen))
  }

  ghost predicate RingMatches(bits: seq<Word>, width: nat, highest: nat, seen: set<nat>)
    requires width > 0 && 64 * |bits| == width
  {
    forall n: nat | n <= highest < n + width :: Bit(bits, Offset(n, width)) <==> n in seen
  }

  /** Two different numbers less than a window apart never share a slot. */
  lemma OffsetsDiffer(a: nat, b: nat, width: nat)
    requires width > 0 && a < b < a + width
    ensures Offset(a, width) != Offset(b, width)
  {
    if a % width == b % width {
      var quotient := b / width - a / width;
      NoSmallMultiple(width, quotient);
      assert b - a == width * (b / width) - width * (a / width);
    }
  }

  lemma NoSmallMultiple(width: nat, quotient: int)
    requires width > 0
    ensures width * quotient <= 0 || width * quotient >= width
  {
    if quotient >= 1 {
      assert width * quotient == width + width * (quotient - 1);
    }
  }

  lemma SlotInRange(number: nat, width: nat, words: nat)
    requires width > 0 && 64 * words == width
    ensures Offset(number, width) / 64 < words && Offset(number, width) < width
  {
  }

  /** Writing one bit changes that bit alone. */
  lemma WriteBit(bits: seq<Word>, offset: nat, value: bool)
    requires offset < 64 * |bits|
    ensures var word: Word := bits[offset / 64][offset % 64 := value];
            var updated := bits[offset / 64 := word];
            && Bit(updated, offset) == value
            && forall o: nat | o < 64 * |bits| && o != offset :: Bit(updated, o) == Bit(bits, o)
  {
    var word: Word := bits[offset / 64][offset % 64 := value];
    var updated := bits[offset / 64 := word];
    forall o: nat | o < 64 * |bits| && o != offset
      ensures Bit(updated, o) == Bit(bits, o)
    {
      if o / 64 == offset / 64 { assert o % 64 != offset % 64; }
    }
  }

  /** Setting the bit of a number in reach adds that number to the set. */
  lemma SetKeepsRing(bits: seq<Word>, updated: seq<Word>, width: nat, highest: nat, seen: set<nat>, number: nat)
    requires width > 0 && 64 * |bits| == width && |updated| == |bits|
    requires RingMatches(bits, width, highest, seen)
    requires number <= highest < number + width
    requires Bit(updated, Offset(number, width))
    requires forall o: nat | o < width && o != Offset(number, width) :: Bit(updated, o) == Bit(bits, o)
    ensures RingMatches(updated, width, highest, seen + {number})
  {
    forall n: nat | n <= highest < n + width
      ensures Bit(updated, Offset(n, width)) <==> n in seen + {number}
    {
      if n < number { OffsetsDiffer(n, number, width); }
      if number < n { OffsetsDiffer(number, n, width); }
    }
  }

  /** Moving the window forward by less than its width: the slots of the numbers skipped were cleared
      and no other slot changed. */
  lemma AdvanceKeepsRing(bits: seq<Word>, cleared: seq<Word>, width: nat, highest: nat, number: nat, seen: set<nat>)
    requires width > 0 && 64 * |bits| == width && |cleared| == |bits|
    requires highest < number < highest + width
    requires RingMatches(bits, width, highest, seen)
    requires forall n | n in seen :: n <= highest
    requires forall n: nat | highest < n <= number :: !Bit(cleared, Offset(n, width))
    requires forall n: nat | n <= highest && number < n + width ::
             Bit(cleared, Offset(n, width)) == Bit(bits, Offset(n, width))
    ensures RingMatches(cleared, width, number, seen)
  {
  }

  /** The server's window. */
  class ServerWindow {
    const width: nat
    var initialized: bool
    var highest: nat
    const bits: array<Word>
    ghost var seen: set<nat>

    ghost function Model(): Window
      reads this
    {
      Window(width, highest, seen)
    }

    ghost predicate Valid()
      reads this, bits
    {
      && initialized == (seen != {})
      && highest <= U64_MAX
      && Represents(Model(), bits[..])
    }

    constructor (width: nat)
      requires ValidWidth(width)
      ensures Valid() && fresh(bits)
      ensures Model() == Empty(width)
    {
      this.width := width;
      initialized := false;
      highest := 0;
      bits := new Word[width / 64](_ => ZERO);
      seen := {};
    }

    /** Refuses a width that is out of range or not a whole number of words. */
    static method New(width: nat) returns (window: ServerWindow?)
      ensures (window != null) == ValidWidth(width)
      ensures window != null ==> window.Valid() && fresh(window) && fresh(window.bits) && window.Model() == Empty(width)
    {
      if !(256 <= width <= 16384) || width % 64 != 0 {
        return null;
      }
      window := new ServerWindow(width);
    }

    method Plausible(number: nat) returns (ok: bool)
      requires Valid() && number <= U64_MAX
      ensures ok == Model().Plausible(number)
    {
      if !initialized {
        return true;
      }
      if SaturatingAdd(number, width) <= highest {
        return false;
      }
      if number > highest {
        return true;
      }
      SlotInRange(number, width, bits.Length);
      var offset := Offset(number, width);
      assert Bit(bits[..], offset) <==> number in seen;
      ok := !bits[offset / 64][offset % 64];
    }

    method ClearSkipped(number: nat)
      requires Valid() && initialized
      requires highest < number < highest + width
      modifies bits
      ensures RingMatches(bits[..], width, number, seen)
    {
      ghost var before := bits[..];
      var cleared := highest + 1;
      while cleared <= number
        invariant highest < cleared <= number + 1
        invariant forall n: nat | highest < n < cleared :: !Bit(bits[..], Offset(n, width))
        invariant forall n: nat | n <= highest && number < n + width ::
                    Bit(bits[..], Offset(n, width)) == Bit(before, Offset(n, width))
      {
        SlotInRange(cleared, width, bits.Length);
        var offset := Offset(cleared, width);
        ghost var step := bits[..];
        WriteBit(step, offset, false);
        bits[offset / 64] := bits[offset / 64][offset % 64 := false];
        assert bits[..] == step[offset / 64 := bits[offset / 64]];
        forall n: nat | (highest < n < cleared) || (n <= highest && number < n + width)
          ensures Bit(bits[..], Offset(n, width)) == Bit(step, Offset(n, width))
        {
          OffsetsDiffer(n, cleared, width);
        }
        cleared := cleared + 1;
      }
      AdvanceKeepsRing(before, bits[..], width, highest, number, seen);
    }

    /** Accepts exactly the plausible numbers; a refused commit changes nothing. The second refusal in
        the source, after the window has moved, is the branch marked unreachable. */
    method CommitAuthenticated(number: nat) returns (ok: bool)
      requires Valid() && number <= U64_MAX
      modifies this, bits
      ensures Valid()
      ensures (Model(), ok) == old(Model()).Commit(number)
      ensures !ok ==> bits[..] == old(bits[..]) && initialized == old(initialized)
    {
      var plausible := Plausible(number);
      if !plausible {
        return false;
      }
      if !initialized {
        initialized := true;
        highest := number;
        assert RingMatches(bits[..], width, highest, seen);
      } else if number > highest {
        var distance := number - highest;
        if distance >= width {
          forall i | 0 <= i < bits.Length {
            bits[i] := ZERO;
          }
          assert RingMatches(bits[..], width, number, seen);
        } else {
          ClearSkipped(number);
        }
        highest := number;
      }
      SlotInRange(number, width, bits.Length);
      var offset := Offset(number, width);
      assert Bit(bits[..], offset) <==> number in seen;
      if bits[offset / 64][offset % 64] {
        assert false;
      }
      ghost var before := bits[..];
      WriteBit(before, offset, true);
      bits[offset / 64] := bits[offset / 64][offset % 64 := true];
      assert bits[..] == before[offset / 64 := bits[offset / 64]];
      SetKeepsRing(before, bits[..], width, highest, seen, number);
      seen := seen + {number};
      ok := true;
    }
  }

  /** The client's window: unbounded integers, and a list of words that is replaced on a long jump. */
  class ClientWindow {
    const width: nat
    var initialized: bool
    var highest: nat
    var bits: seq<Word>
    ghost var seen: set<nat>

    ghost function Model(): Window
      reads this
    {
      Window(width, highest, seen)
    }

    ghost predicate Valid()
      reads this
    {
      && initialized == (seen != {})
      && Represents(Model(), bits)
    }

    constructor (width: nat)
      requires ValidWidth(width)
      ensures Valid() && Model() == Empty(width)
    {
      this.width := width;
      initialized := false;
      highest := 0;
      bits := seq(width / 64, _ => ZERO);
      seen := {};
    }

    method Plausible(number: nat) returns (ok: bool)
      requires Valid()
      ensures ok == Model().Fresh(number)
    {
      if !initialized {
        return true;
      }
      if number + width <= highest {
        return false;
      }
      if number > highest {
        return true;
      }
      SlotInRange(number, width, |bits|);
      var offset := Offset(number, width);
      ok := !bits[offset / 64][offset % 64];
    }

    method ClearSkipped(number: nat)
      requires Valid() && initialized
      requires highest < number < highest + width
      modifies `bits
      ensures 64 * |bits| == width && RingMatches(bits, width, number, seen)
    {
      ghost var before := bits;
      var cleared := highest + 1;
      while cleared <= number
        invariant highest < cleared <= number + 1
        invariant |bits| == |before|
        invariant forall n: nat | highest < n < cleared :: !Bit(bits, Offset(n, width))
        invariant forall n: nat | n <= highest && number < n + width ::
                    Bit(bits, Offset(n, width)) == Bit(before, Offset(n, width))
      {
        SlotInRange(cleared, width, |bits|);
        var offset := Offset(cleared, width);
        ghost var step := bits;
        WriteBit(step, offset, false);
        bits := bits[offset / 64 := bits[offset / 64][offset % 64 := false]];
        forall n: nat | (highest < n < cleared) || (n <= highest && number < n + width)
          ensures Bit(bits, Offset(n, width)) == Bit(step, Offset(n, width))
        {
          OffsetsDiffer(n, cleared, width);
        }
        cleared := cleared + 1;
      }
      AdvanceKeepsRing(before, bits, width, highest, number, seen);
    }

    method CommitAuthenticated(number: nat) returns (ok: bool)
      requires Valid()
      modifies this
      ensures Valid()
      ensures ok == old(Model()).Fresh(number)
      ensures Model() == if ok then old(Model()).Add(number) else old(Model())
      ensures !ok ==> bits == old(bits)
    {
      var plausible := Plausible(number);
      if !plausible {
        return false;
      }
      if !initialized {
        initialized := true;
        highest := number;
        assert RingMatches(bits, width, highest, seen);
      } else if number > highest {
        var distance := number - highest;
        if distance >= width {
          bits := seq(|bits|, _ => ZERO);
          assert RingMatches(bits, width, number, seen);
        } else {
          ClearSkipped(number);
        }
        highest := number;
      }
      SlotInRange(number, width, |bits|);
      var offset := Offset(number, width);
      assert Bit(bits, offset) <==> number in seen;
      if bits[offset / 64][offset % 64] {
        assert false;
      }
      ghost var before := bits;
      WriteBit(before, offset, true);
      bits := bits[offset / 64 := bits[offset / 64][offset % 64 := true]];
      SetKeepsRing(before, bits, width, highest, seen, number);
      seen := seen + {number};
      ok := true;
    }
  }
}
