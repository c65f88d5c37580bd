/** The ones' complement checksum of section 1 of RFC 1071, as the server checks it in IPv4 headers and as the
    probe computes it. */
module Checksum {
  import opened Prelude

  const WORD: nat := 0x1_0000
  const ONES: nat := 0xFFFF

  /** Sum of the big-endian 16-bit words; an odd byte at the end does not count. */
  function WordSum(b: Bytes): nat {
    if |b| < 2 then 0 else b[0] * 256 + b[1] + WordSum(b[2..])
  }

  /** What the carry loop ends in. */
  function Folded(sum: nat): nat {
    if sum < WORD then sum else Folded(sum % WORD + sum / WORD)
  }

  function Checksum(sum: nat): int {
    ONES - Folded(sum)
  }

  lemma ModuloSteps(a: nat, q: nat)
    ensures (a + q * ONES) % ONES == a % ONES
  {
    var k, r := a / ONES, a % ONES;
    assert a + q * ONES == (k + q) * ONES + r;
    ModuloOf(k + q, r);
  }

  lemma ModuloOf(k: nat, r: nat)
    requires r < ONES
    ensures (k * ONES + r) % ONES == r
  {
  }

  lemma FoldStep(sum: nat)
    ensures (sum % WORD + sum / WORD) % ONES == sum % ONES
  {
    var q, r := sum / WORD, sum % WORD;
    assert sum == r + q + q * ONES;
    ModuloSteps(r + q, q);
  }

  /** The loop ends in 16 bits and keeps the sum modulo 65535; it ends in zero only from zero. */
  lemma {:induction false} FoldedMeans(sum: nat)
    ensures Folded(sum) < WORD && Folded(sum) % ONES == sum % ONES && (Folded(sum) == 0 <==> sum == 0)
  {
    if sum >= WORD {
      FoldStep(sum);
      FoldedMeans(sum % WORD + sum / WORD);
    }
  }

  /** A checksum of zero, in terms of the words alone. */
  lemma ZeroMeans(sum: nat)
    ensures Checksum(sum) == 0 <==> sum % ONES == 0 && sum != 0
  {
    FoldedMeans(sum);
  }

  lemma {:induction false} WordSumBound(b: Bytes)
    ensures WordSum(b) <= |b| / 2 * ONES
  {
    if |b| >= 2 { WordSumBound(b[2..]); }
  }

  /** Big-endian insertion of a word. */
  function WithWord(b: Bytes, at: nat, value: nat): Bytes
    requires at + 1 < |b| && value < WORD
  {
    b[at := value / 256][at + 1 := value % 256]
  }

  lemma {:induction false} InsertedSum(b: Bytes, at: nat, value: nat)
    requires at % 2 == 0 && at + 1 < |b| && value < WORD && b[at] == 0 && b[at + 1] == 0
    ensures WordSum(WithWord(b, at, value)) == WordSum(b) + value
    decreases at
  {
    var c := WithWord(b, at, value);
    if at == 0 {
      assert c[2..] == b[2..];
    } else {
      assert c[2..] == WithWord(b[2..], at - 2, value);
      InsertedSum(b[2..], at - 2, value);
    }
  }

  /** Which values of a zeroed field make the whole check out: the checksum itself, and all ones where that
      is zero. */
  lemma FieldAcceptedIff(b: Bytes, at: nat, value: nat)
    requires at % 2 == 0 && at + 1 < |b| && value < WORD && b[at] == 0 && b[at + 1] == 0
    ensures Checksum(WordSum(WithWord(b, at, value))) == 0
            <==> value == Checksum(WordSum(b)) || (value == ONES && Checksum(WordSum(b)) == 0)
  {
    hide WithWord, WordSum, Folded;
    var sum := WordSum(b);
    InsertedSum(b, at, value);
    ZeroMeans(sum + value);
    FoldedMeans(sum);
    ZeroSums(sum, Folded(sum), value);
  }

  lemma ZeroSums(sum: nat, folded: nat, value: nat)
    requires folded < WORD && value < WORD && folded % ONES == sum % ONES && (folded == 0 <==> sum == 0)
    ensures (sum + value) % ONES == 0 && sum + value != 0
            <==> value == ONES - folded || (value == ONES && folded == ONES)
  {
    var q, r := sum / ONES, sum % ONES;
    assert sum + value == (r + value) + q * ONES;
    ModuloSteps(r + value, q);
    assert r == if folded == ONES then 0 else folded;
  }

  /** The probe's checksum in the zeroed field of an IPv4 header of legal length passes the server. */
  lemma ProbeHeaderAccepted(header: Bytes)
    requires 20 <= |header| <= 60 && |header| % 4 == 0 && header[10] == 0 && header[11] == 0
    ensures 0 <= Checksum(WordSum(header)) < WORD
    ensures Checksum(WordSum(WithWord(header, 10, Checksum(WordSum(header))))) == 0
  {
    hide WithWord, WordSum;
    FoldedMeans(WordSum(header));
    FieldAcceptedIff(header, 10, Checksum(WordSum(header)));
  }

  lemma WordSumSplits(b: Bytes, k: nat)
    requires 2 * k + 1 < |b|
    ensures WordSum(b[2 * k..]) == b[2 * k] * 256 + b[2 * k + 1] + WordSum(b[2 * k + 2..])
  {
    assert b[2 * k..][2..] == b[2 * k + 2..];
  }

  lemma {:induction false} SumSplits(a: Bytes, b: Bytes)
    requires |a| % 2 == 0
    ensures WordSum(a + b) == WordSum(a) + WordSum(b)
    decreases |a|
  {
    if a == [] { assert a + b == b; } else { SumSplits(a[2..], b); assert (a + b)[2..] == a[2..] + b; }
  }

  lemma CarryAround(high: nat, word: nat, sum: nat)
    requires high % ONES == sum % ONES
    ensures (high * WORD + word) % ONES == (sum + word) % ONES
  {
    var a, r := high / ONES, high % ONES;
    var c := sum / ONES;
    assert high == a * ONES + r && sum == c * ONES + r;
    assert high * WORD + word == (high + word) + high * ONES;
    ModuloSteps(high + word, high);
    assert high + word == r + word + a * ONES && sum + word == r + word + c * ONES;
    ModuloSteps(r + word, a);
    ModuloSteps(r + word, c);
  }

  /** The words add up to the number the bytes spell, modulo 65535, and to zero only if all of them are. */
  lemma {:induction false} SumIsNumber(b: Bytes)
    requires |b| % 2 == 0
    ensures WordSum(b) % ONES == FromBigEndian(b) % ONES
    ensures WordSum(b) == 0 <==> FromBigEndian(b) == 0
    decreases |b|
  {
    if b != [] {
      var n := |b| - 2;
      SumIsNumber(b[..n]);
      assert b == b[..n] + b[n..];
      SumSplits(b[..n], b[n..]);
      var high: nat, low: nat := b[n], b[n + 1];
      var word := high * 256 + low;
      assert WordSum(b[n..]) == word by { assert b[n..][2..] == []; }
      assert FromBigEndian(b) == FromBigEndian(b[..n]) * WORD + word by {
        assert b[..n + 1][..n] == b[..n];
      }
      assert WordSum(b) == WordSum(b[..n]) + word;
      CarryAround(FromBigEndian(b[..n]), word, WordSum(b[..n]));
    }
  }

  /** So the server takes a header of whole words exactly when, read as one number, it is a multiple of 65535 and not
      zero. */
  lemma ZeroChecksumIff(b: Bytes)
    requires |b| % 2 == 0
    ensures Checksum(WordSum(b)) == 0 <==> FromBigEndian(b) % ONES == 0 && FromBigEndian(b) != 0
  {
    hide WordSum, FromBigEndian;
    SumIsNumber(b);
    ZeroMeans(WordSum(b));
  }

  /** The server's loop over 32 bits: no header of up to 131075 bytes makes the accumulator overflow. */
  method Ipv4Checksum(header: Bytes) returns (r: nat)
    requires |header| / 2 <= WORD + 1
    ensures r == Checksum(WordSum(header)) && r < WORD
  {
    hide WordSum;
    var sum: nat := 0;
    assert header[0..] == header;
    WordSumBound(header);
    for k := 0 to |header| / 2
      invariant sum + WordSum(header[2 * k..]) == WordSum(header)
    {
      WordSumSplits(header, k);
      var high: nat, low: nat := header[2 * k], header[2 * k + 1];
      var word := high * 256 + low;
      assert sum + word < U32_LIMIT;
      sum := sum + word;
    }
    LastByte(header);
    ghost var total := sum;
    while sum / WORD != 0
      invariant Folded(sum) == Folded(total) && sum < U32_LIMIT
      decreases sum
    {
      sum := sum % WORD + sum / WORD;
    }
    return ONES - sum;
  }

  lemma LastByte(b: Bytes)
    ensures WordSum(b[|b| / 2 * 2..]) == 0
  {
  }

  function Padded(b: Bytes): Bytes {
    if |b| % 2 == 1 then b + [0] else b
  }

  /** The odd byte at the end is the high byte of a last word: the number is shifted by eight bits. */
  lemma PaddedNumber(b: Bytes)
    ensures |Padded(b)| % 2 == 0
    ensures FromBigEndian(Padded(b)) == if |b| % 2 == 1 then 256 * FromBigEndian(b) else FromBigEndian(b)
  {
    if |b| % 2 == 1 { assert (b + [0])[..|b|] == b; }
  }

  /** The probe's form: a trailing odd byte is the high byte of a last word, and integers do not overflow. */
  method InternetChecksum(value: Bytes) returns (r: nat)
    ensures r == Checksum(WordSum(Padded(value))) && r < WORD
  {
    hide WordSum;
    var bytes := value;
    if |bytes| % 2 == 1 {
      bytes := bytes + [0];
    }
    var total: nat := 0;
    assert bytes[0..] == bytes;
    for k := 0 to |bytes| / 2
      invariant total + WordSum(bytes[2 * k..]) == WordSum(bytes)
    {
      WordSumSplits(bytes, k);
      var high: nat, low: nat := bytes[2 * k], bytes[2 * k + 1];
      total := total + high * 256 + low;
    }
    LastByte(bytes);
    ghost var sum := total;
    FoldedMeans(sum);
    while total / WORD != 0
      invariant Folded(total) == Folded(sum)
      decreases total
    {
      total := total % WORD + total / WORD;
    }
    return ONES - total;
  }
}
