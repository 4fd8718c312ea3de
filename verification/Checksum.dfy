/** The Internet checksum and its incremental update (section 3 of RFC 1624). */
module Checksum {
  import opened Bytes

  /** Sum of the 16-bit network-order words, an odd last byte padded with zero (RFC 1071). */
  ghost function WordSum(s: seq<byte>): (sum: nat)
  {
    if s == [] then 0
    else if |s| == 1 then Net16(s[0], 0)
    else Net16(s[0], s[1]) + WordSum(s[2..])
  }

  /** End-around carry, repeated until the sum fits 16 bits. */
  ghost function Fold(s: nat): (r: u16)
    ensures r % 0xFFFF == s % 0xFFFF
    ensures r == 0 <==> s == 0
  {
    if s < 0x1_0000 then s
    else
      assert s == 0xFFFF * (s / 0x1_0000) + (s % 0x1_0000 + s / 0x1_0000);
      ModShift(s % 0x1_0000 + s / 0x1_0000, s / 0x1_0000);
      Fold(s % 0x1_0000 + s / 0x1_0000)
  }

  /** What a receiver checks: the folded sum over all words, checksum included, is all ones. */
  ghost predicate SumOk(sum: nat) { Fold(sum) == 0xFFFF }

  lemma ModShift(a: int, k: int)
    ensures (a + 0xFFFF * k) % 0xFFFF == a % 0xFFFF
  {
  }

  lemma {:induction false} SumOkIff(sum: nat)
    ensures SumOk(sum) <==> sum > 0 && sum % 0xFFFF == 0
  {
    var f := Fold(sum);
  }

  /** csum_adj: every operand is a raw 16-bit word. */
  function CsumAdj(sum: u16, old_: u16, new_: u16): (r: u16)
    ensures (r + new_ - sum - old_) % 0xFFFF == 0
    ensures r == 0xFFFF <==> sum == 0xFFFF && old_ == 0xFFFF && new_ == 0
  {
    var s := (0xFFFF - sum) + (0xFFFF - old_) + new_;
    var s1 := s % 0x1_0000 + s / 0x1_0000;
    var s2 := s1 % 0x1_0000 + s1 / 0x1_0000;
    0xFFFF - s2
  }

  /** csum_adj32: the high half first, then the low half. */
  function CsumAdj32(sum: u16, oldHi: u16, oldLo: u16, newHi: u16, newLo: u16): u16
  {
    CsumAdj(CsumAdj(sum, oldHi, newHi), oldLo, newLo)
  }

  /** Exchange the bytes of a word. */
  function Swap(w: u16): u16 { 256 * (w % 256) + w / 256 }

  /** Scaled by 256, a raw-word congruence becomes one about the swapped words. */
  lemma SwapCongruence(c: u16, c': u16, o: u16, n: u16) returns (k: int)
    requires (c' + n - c - o) % 0xFFFF == 0
    ensures Swap(c') + Swap(n) - Swap(c) - Swap(o) == 0xFFFF * k
  {
    var m := Multiple(c' + n - c - o);
    k := 256 * m - (c' / 256 - c / 256 + n / 256 - o / 256);
  }

  /** Congruent words are equal but for 0 against 0xFFFF. */
  lemma CongruentWords(x: u16, y: u16, k: int)
    requires x - y == 0xFFFF * k
    requires x == 0xFFFF <==> y == 0xFFFF
    ensures x == y
  {
    assert k == 0 || k == 1 || k == -1;
  }

  lemma SwapAllOnes(w: u16)
    ensures Swap(w) == 0xFFFF <==> w == 0xFFFF
    ensures Swap(w) == 0 <==> w == 0
  {
  }

  /** The update commutes with swapping the bytes of every word (section 2(B) of RFC 1071),
      the 0x0000 / 0xFFFF corner included. */
  lemma CsumAdjSwaps(sum: u16, old_: u16, new_: u16)
    ensures CsumAdj(Swap(sum), Swap(old_), Swap(new_)) == Swap(CsumAdj(sum, old_, new_))
  {
    hide Swap, CsumAdj;
    var r := CsumAdj(sum, old_, new_);
    var t := CsumAdj(Swap(sum), Swap(old_), Swap(new_));
    SwapAllOnes(sum);
    SwapAllOnes(old_);
    SwapAllOnes(new_);
    SwapAllOnes(r);
    var k := SwapCongruence(sum, r, old_, new_);
    var m := Multiple(t + Swap(new_) - Swap(sum) - Swap(old_));
    CongruentWords(Swap(r), t, k - m);
  }

  lemma Multiple(a: int) returns (m: int)
    requires a % 0xFFFF == 0
    ensures a == 0xFFFF * m
  {
    m := a / 0xFFFF;
  }

  /** Replace the 16-bit word at an index. */
  function Put16(s: seq<byte>, i: nat, hi: byte, lo: byte): seq<byte>
    requires i + 1 < |s|
  {
    s[i := hi][i + 1 := lo]
  }

  lemma {:induction false} WordSumPut16(s: seq<byte>, i: nat, hi: byte, lo: byte)
    requires i % 2 == 0 && i + 1 < |s|
    ensures WordSum(Put16(s, i, hi, lo)) == WordSum(s) - Net16(s[i], s[i + 1]) + Net16(hi, lo)
  {
    var t := Put16(s, i, hi, lo);
    if i == 0 {
      assert t[2..] == s[2..];
    } else {
      assert t[2..] == Put16(s[2..], i - 2, hi, lo);
      WordSumPut16(s[2..], i - 2, hi, lo);
    }
  }
}
