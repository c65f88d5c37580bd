/** What the decoder's test on text means: exactly the byte strings that spell out Unicode scalar values. */
module Utf8Text {
  import opened Prelude
  import opened Cbor

  /** A Unicode scalar value: up to U+10FFFF, without the surrogates. */
  predicate IsScalar(point: nat) {
    point < 0xD800 || 0xE000 <= point < 0x11_0000
  }

  /** Section 3 of RFC 3629: the octets of one scalar value. */
  function Octets(point: nat): Bytes
    requires IsScalar(point)
  {
    if point < 0x80 then [point]
    else if point < 0x800 then [0xC0 + point / 0x40, 0x80 + point % 0x40]
    else if point < 0x1_0000 then [0xE0 + point / 0x1000, 0x80 + point / 0x40 % 0x40, 0x80 + point % 0x40]
    else [0xF0 + point / 0x4_0000, 0x80 + point / 0x1000 % 0x40, 0x80 + point / 0x40 % 0x40, 0x80 + point % 0x40]
  }

  function TextOctets(points: seq<nat>): Bytes
    requires forall i | 0 <= i < |points| :: IsScalar(points[i])
  {
    if points == [] then [] else Octets(points[0]) + TextOctets(points[1..])
  }

  lemma OctetsRead(point: nat, rest: Bytes)
    requires IsScalar(point)
    ensures Utf8(Octets(point) + rest) <==> Utf8(rest)
  {
    var b := Octets(point) + rest;
    if point < 0x80 { assert b[1..] == rest; }
    else if point < 0x800 { assert b[2..] == rest; }
    else if point < 0x1_0000 { assert b[3..] == rest; }
    else { assert b[4..] == rest; }
  }

  lemma Sextets(a: nat, b: nat, c: nat, d: nat)
    requires b < 0x40 && c < 0x40 && d < 0x40
    ensures var two := a * 0x40 + b; two / 0x40 == a && two % 0x40 == b
    ensures var three := a * 0x1000 + b * 0x40 + c;
            three / 0x1000 == a && three / 0x40 % 0x40 == b && three % 0x40 == c
    ensures var four := a * 0x4_0000 + b * 0x1000 + c * 0x40 + d;
            four / 0x4_0000 == a && four / 0x1000 % 0x40 == b && four / 0x40 % 0x40 == c && four % 0x40 == d
  {
    assert (a * 0x40 + b) * 0x40 + c == a * 0x1000 + b * 0x40 + c;
    assert (a * 0x1000 + b * 0x40 + c) * 0x40 + d == a * 0x4_0000 + b * 0x1000 + c * 0x40 + d;
  }

  /** The scalar value of the first octets, and how many they are. */
  function Lead(b: Bytes): (r: (nat, nat))
    requires b != [] && Utf8(b)
  {
    var first: nat := b[0];
    if first < 0x80 then (first, 1)
    else if first < 0xE0 then ((first - 0xC0) * 0x40 + (b[1] as nat - 0x80), 2)
    else if first < 0xF0 then ((first - 0xE0) * 0x1000 + (b[1] as nat - 0x80) * 0x40 + (b[2] as nat - 0x80), 3)
    else ((first - 0xF0) * 0x4_0000 + (b[1] as nat - 0x80) * 0x1000 + (b[2] as nat - 0x80) * 0x40
          + (b[3] as nat - 0x80), 4)
  }

  lemma OneOctet(x: nat)
    requires x < 0x80
    ensures IsScalar(x) && Octets(x) == [x]
  {
  }

  lemma TwoOctets(x: nat, y: nat)
    requires 0xC2 <= x < 0xE0 && 0x80 <= y < 0xC0
    ensures var point := (x - 0xC0) * 0x40 + (y - 0x80); IsScalar(point) && Octets(point) == [x, y]
  {
    Sextets(x - 0xC0, y - 0x80, 0, 0);
  }

  lemma ThreeOctets(x: nat, y: nat, z: nat)
    requires 0xE0 <= x < 0xF0 && 0x80 <= y < 0xC0 && 0x80 <= z < 0xC0 && (x == 0xE0 ==> y >= 0xA0)
    requires x == 0xED ==> y < 0xA0
    ensures var point := (x - 0xE0) * 0x1000 + (y - 0x80) * 0x40 + (z - 0x80);
            IsScalar(point) && Octets(point) == [x, y, z]
  {
    Sextets(x - 0xE0, y - 0x80, z - 0x80, 0);
  }

  lemma FourOctets(x: nat, y: nat, z: nat, w: nat)
    requires 0xF0 <= x < 0xF5 && 0x80 <= y < 0xC0 && 0x80 <= z < 0xC0 && 0x80 <= w < 0xC0
    requires (x == 0xF0 ==> y >= 0x90) && (x == 0xF4 ==> y < 0x90)
    ensures var point := (x - 0xF0) * 0x4_0000 + (y - 0x80) * 0x1000 + (z - 0x80) * 0x40 + (w - 0x80);
            IsScalar(point) && Octets(point) == [x, y, z, w]
  {
    Sextets(x - 0xF0, y - 0x80, z - 0x80, w - 0x80);
  }

  /** What well-formed text says about its first octets. */
  lemma WellLed(b: Bytes)
    requires b != [] && Utf8(b)
    ensures var x, size := b[0], Lead(b).1;
            && x < 0xF5 && size <= |b| && Utf8(b[size..])
            && (forall i | 1 <= i < size :: 0x80 <= b[i] < 0xC0)
            && (x >= 0x80 ==> x >= 0xC2)
            && (x == 0xE0 ==> b[1] >= 0xA0) && (x == 0xED ==> b[1] < 0xA0)
            && (x == 0xF0 ==> b[1] >= 0x90) && (x == 0xF4 ==> b[1] < 0x90)
  {
  }

  lemma LeadIsFirst(b: Bytes)
    requires b != [] && Utf8(b)
    ensures var (point, size) := Lead(b);
            size <= |b| && IsScalar(point) && Octets(point) == b[..size] && Utf8(b[size..])
  {
    hide Octets, IsScalar, Utf8;
    WellLed(b);
    if b[0] < 0x80 { OneOctet(b[0]); }
    else if b[0] < 0xE0 { TwoOctets(b[0], b[1]); }
    else if b[0] < 0xF0 { ThreeOctets(b[0], b[1], b[2]); }
    else { FourOctets(b[0], b[1], b[2], b[3]); }
  }

  ghost predicate SpellsOut(b: Bytes, points: seq<nat>) {
    (forall i | 0 <= i < |points| :: IsScalar(points[i])) && b == TextOctets(points)
  }

  /** Text is well-formed if and only if it is the octets of some scalar values. */
  lemma {:induction false} Utf8Iff(b: Bytes)
    ensures Utf8(b) <==> exists points: seq<nat> :: SpellsOut(b, points)
  {
    if Utf8(b) {
      var points := Points(b);
      assert SpellsOut(b, points);
    }
    if points: seq<nat> :| SpellsOut(b, points) { SpelledIsUtf8(points); }
  }

  lemma {:induction false} Points(b: Bytes) returns (points: seq<nat>)
    requires Utf8(b)
    ensures SpellsOut(b, points)
    decreases |b|
  {
    points := [];
    if b != [] {
      LeadIsFirst(b);
      var (point, size) := Lead(b);
      var others := Points(b[size..]);
      points := [point] + others;
      assert b == b[..size] + b[size..];
      assert points[1..] == others;
    }
  }

  lemma {:induction false} SpelledIsUtf8(points: seq<nat>)
    requires forall i | 0 <= i < |points| :: IsScalar(points[i])
    ensures Utf8(TextOctets(points))
  {
    if points != [] {
      SpelledIsUtf8(points[1..]);
      OctetsRead(points[0], TextOctets(points[1..]));
    }
  }
}
