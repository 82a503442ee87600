/**
  The Internet checksum of crates/agent-core/src/dns.rs, proved against the sixteen-bit
  one's-complement sum of RFC 1071 section 1, in which every single addition carries around.
  The code instead adds whole words in a u32 and folds the carries at the end.
 */
module Checksum {
  import opened Octets

  const ONES := 0xFFFF
  const U32_RANGE := 0x1_0000_0000

  /** One's-complement addition of two sixteen-bit words: the carry comes back in at the bottom. */
  function OnesAdd(a: nat, b: nat): nat {
    if a + b > ONES then a + b - ONES else a + b
  }

  /** RFC 1071 section 1: the one's-complement sum of the words, an odd last byte padded with zero. */
  function OnesSum(data: Bytes): (s: nat)
    ensures s <= ONES
    decreases |data|
  {
    if |data| == 0 then 0
    else if |data| == 1 then BE16(data[0], 0)
    else OnesAdd(BE16(data[0], data[1]), OnesSum(data[2..]))
  }

  /** The same words added without any carry. */
  function WordSum(data: Bytes): nat
    decreases |data|
  {
    if |data| == 0 then 0
    else if |data| == 1 then BE16(data[0], 0)
    else BE16(data[0], data[1]) + WordSum(data[2..])
  }

  /** What a receiver checks: the sum over everything, checksum included, is all ones. */
  predicate Verifies(data: Bytes) {
    OnesSum(data) == ONES
  }

  /** The residue of a sum modulo 65535, in one's-complement form: only zero itself gives zero. */
  function Residue(sum: nat): (s: nat)
    ensures s <= ONES && s % 0xFFFF == sum % 0xFFFF && (s == 0 <==> sum == 0)
  {
    if sum == 0 then 0 else (sum - 1) % 0xFFFF + 1
  }

  lemma ResidueIsUnique(sum: nat, s: nat)
    requires s <= ONES && s % 0xFFFF == sum % 0xFFFF && (s == 0 <==> sum == 0)
    ensures s == Residue(sum)
  {
  }

  lemma ModOfSum(a: nat, b: nat)
    ensures (a + b) % 0xFFFF == (a % 0xFFFF + b % 0xFFFF) % 0xFFFF
  {
  }

  /** One more word, added with and without carrying around. */
  lemma ResidueStep(w: nat, sum: nat)
    requires w <= ONES
    ensures OnesAdd(w, Residue(sum)) == Residue(w + sum)
  {
    ModOfSum(w, sum);
    ModOfSum(w, Residue(sum));
    ResidueIsUnique(w + sum, OnesAdd(w, Residue(sum)));
  }

  /** Carrying at every step and folding once at the end give the same sum. */
  lemma {:induction false} DeferredCarries(data: Bytes)
    ensures OnesSum(data) == Residue(WordSum(data))
    decreases |data|
  {
    if |data| == 1 {
      ResidueIsUnique(WordSum(data), WordSum(data));
    } else if |data| >= 2 {
      DeferredCarries(data[2..]);
      ResidueStep(BE16(data[0], data[1]), WordSum(data[2..]));
    }
  }

  lemma {:induction false} WordSumOfConcat(a: Bytes, b: Bytes)
    requires |a| % 2 == 0
    ensures WordSum(a + b) == WordSum(a) + WordSum(b)
    decreases |a|
  {
    if a == [] {
      assert a + b == b;
    } else {
      assert (a + b)[2..] == a[2..] + b;
      WordSumOfConcat(a[2..], b);
    }
  }

  lemma {:induction false} WordSumBound(data: Bytes)
    ensures WordSum(data) <= 0xFFFF * ((|data| + 1) / 2)
    decreases |data|
  {
    if |data| >= 2 {
      WordSumBound(data[2..]);
    }
  }

  lemma WordSumAround(before: Bytes, word: Bytes, after: Bytes)
    requires |before| % 2 == 0 && |word| == 2
    ensures WordSum(before + word + after) == WordSum(before) + BE16(word[0], word[1]) + WordSum(after)
  {
    assert before + word + after == before + (word + after);
    WordSumOfConcat(before, word + after);
    WordSumOfConcat(word, after);
    assert word[2..] == [];
  }

  /**
    Storing the complement of the sum in an even-aligned zero field makes the whole verify,
    whatever the other bytes are; all ones in place of a computed zero does so too.
   */
  lemma StoredChecksumVerifies(before: Bytes, stored: Bytes, after: Bytes)
    requires |before| % 2 == 0 && |stored| == 2
    requires var s, c := OnesSum(before + [0, 0] + after), BE16(stored[0], stored[1]);
             c == ONES - s || (s == ONES && c == ONES)
    ensures Verifies(before + stored + after)
  {
    hide OnesSum, WordSum, Residue;
    var zeroed, whole, c := before + [0, 0] + after, before + stored + after, BE16(stored[0], stored[1]);
    WordSumAround(before, [0, 0], after);
    WordSumAround(before, stored, after);
    DeferredCarries(zeroed);
    DeferredCarries(whole);
    ComplementFoldsToOnes(WordSum(zeroed), c);
  }

  lemma ComplementFoldsToOnes(sum: nat, c: nat)
    requires c <= ONES && (c == ONES - Residue(sum) || (Residue(sum) == ONES && c == ONES))
    ensures Residue(sum + c) == ONES
  {
    ModOfSum(sum, c);
    ModOfSum(Residue(sum), c);
    assert (Residue(sum) + c) % 0xFFFF == 0;
  }

  lemma FoldOnce(sum: nat)
    requires sum >= WORD
    ensures 0 < sum % 0x1_0000 + sum / 0x1_0000 < sum
    ensures (sum % 0x1_0000 + sum / 0x1_0000) % 0xFFFF == sum % 0xFFFF
  {
    var hi, lo := sum / 0x1_0000, sum % 0x1_0000;
    assert sum == hi * 0x1_0000 + lo == hi * 0xFFFF + (hi + lo);
  }

  /** The `while sum >> 16 != 0` loop both checksums end with. */
  method FoldCarries(start: nat) returns (folded: nat)
    ensures folded == Residue(start)
  {
    var sum: nat := start;
    while sum / 0x1_0000 != 0
      invariant sum % 0xFFFF == start % 0xFFFF
      invariant sum == 0 <==> start == 0
      decreases sum
    {
      FoldOnce(sum);
      sum := sum % 0x1_0000 + sum / 0x1_0000;
    }
    ResidueIsUnique(start, sum);
    folded := sum;
  }

  /** The value a u32 accumulator holds after an addition (wrapping, as a release build does). */
  function Wrap32(n: nat): nat {
    n % 0x1_0000_0000
  }

  /** The accumulating loop: whole words, then an odd last byte padded with zero. */
  method AddWords(start: nat, data: Bytes) returns (sum: nat)
    ensures start + WordSum(data) < U32_RANGE ==> sum == start + WordSum(data)
  {
    sum := start;
    var i := 0;
    while i + 2 <= |data|
      invariant i <= |data|
      invariant start + WordSum(data) < U32_RANGE ==> sum + WordSum(data[i..]) == start + WordSum(data)
    {
      assert data[i..][2..] == data[i + 2..];
      sum := Wrap32(sum + BE16(data[i], data[i + 1]));
      i := i + 2;
    }
    if i < |data| {
      sum := Wrap32(sum + BE16(data[i], 0));
    }
  }

  /** `ip_checksum`: whole words only, as `chunks_exact(2)` yields them. */
  method IpChecksum(header: Bytes) returns (c: nat)
    requires |header| <= ONES
    ensures c == ONES - OnesSum(header[..|header| / 2 * 2])
  {
    var words := header[..|header| / 2 * 2];
    WordSumBound(words);
    var sum := AddWords(0, words);
    var folded := FoldCarries(sum);
    DeferredCarries(words);
    c := ONES - folded;
  }

  /** RFC 8200 section 8.1: source, destination, 32-bit upper-layer length, zeros, next header 17. */
  function PseudoHeader6(src: Octets16, dst: Octets16, length: nat): (p: Bytes)
    requires length <= ONES
    ensures |p| == 40
  {
    src + dst + [0, 0] + U16(length) + [0, 0, 0, 17]
  }

  lemma PseudoHeader6Sum(src: Octets16, dst: Octets16, length: nat)
    requires length <= ONES
    ensures WordSum(PseudoHeader6(src, dst, length)) == WordSum(src + dst) + length + 17
  {
    hide U16;
    var addrs, fixed := src + dst, [0, 0, 0, 17];
    WordSumAround(addrs + [0, 0], U16(length), fixed);
    WordSumAround(addrs, [0, 0], []);
    assert addrs + [0, 0] + [] == addrs + [0, 0];
    assert fixed[2..] == [0, 17];
  }

  /** What `udp6_checksum` accumulates fits its u32 and folds to the sum over all it covers. */
  lemma Covered6Folds(src: Octets16, dst: Octets16, segment: Bytes)
    requires |segment| <= ONES
    ensures var sum := WordSum(src + dst) + |segment| + 17 + WordSum(segment);
            sum < U32_RANGE && Residue(sum) == OnesSum(PseudoHeader6(src, dst, |segment|) + segment)
  {
    var covered := PseudoHeader6(src, dst, |segment|) + segment;
    PseudoHeader6Sum(src, dst, |segment|);
    WordSumOfConcat(PseudoHeader6(src, dst, |segment|), segment);
    WordSumBound(covered);
    DeferredCarries(covered);
  }

  /** The upper-layer length, added as its two sixteen-bit halves. */
  function AddLength(sum: nat, length: nat): (r: nat)
    ensures length <= ONES && sum + length < U32_RANGE ==> r == sum + length
  {
    var len := Wrap32(length);
    Wrap32(Wrap32(sum + len / 0x1_0000) + len % 0x1_0000)
  }

  /**
    `udp6_checksum`. For every segment whose length a UDP header can state, no addition wraps
    and the result is the complement of the one's-complement sum, with zero sent as all ones.
   */
  method Udp6Checksum(src: Octets16, dst: Octets16, segment: Bytes) returns (c: nat)
    ensures 0 < c <= ONES
    ensures |segment| <= ONES ==>
              var s := OnesSum(PseudoHeader6(src, dst, |segment|) + segment);
              c == if s == ONES then ONES else ONES - s
  {
    hide WordSum, OnesSum, Residue, PseudoHeader6, AddLength;
    if |segment| <= ONES {
      Covered6Folds(src, dst, segment);
    }
    var sum := AddWords(0, src + dst);
    sum := AddLength(sum, |segment|);
    sum := Wrap32(sum + 17);
    sum := AddWords(sum, segment);
    var folded := FoldCarries(sum);
    c := if folded == ONES then ONES else ONES - folded;
  }
}
