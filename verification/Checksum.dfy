/**
 * `IcmpManager::check_sum` (include/icmp.hpp): the accumulating loop with its two
 * folds, proved against the one's-complement checksum of sections 1 and 2 of
 * RFC 1071. Words are read low byte first, as the code reads host-order words.
 */
module Checksum {
  import opened Common

  type Word = x: int | 0 <= x < 0x1_0000

  const INT_MAX := 0x7FFF_FFFF

  // ---- One's-complement arithmetic ----------------------------------------

  /** 16-bit addition with end-around carry. */
  function OnesAdd(a: Word, b: Word): Word {
    if a + b > 0xFFFF then a + b - 0xFFFF else a + b
  }

  /** The RFC's sum of a sequence of words. */
  function OnesSum(ws: seq<Word>): Word {
    if ws == [] then 0 else OnesAdd(OnesSum(ws[..|ws| - 1]), ws[|ws| - 1])
  }

  /** The RFC's checksum: the complement of the one's-complement sum. */
  function Rfc1071(ws: seq<Word>): Word { 0xFFFF - OnesSum(ws) }

  function PlainSum(ws: seq<Word>): nat {
    if ws == [] then 0 else PlainSum(ws[..|ws| - 1]) + ws[|ws| - 1]
  }

  /** The representative of `n` modulo 65535 that end-around carry produces: 0 for
      0 only. */
  function Norm(n: nat): Word {
    if n == 0 then 0 else (n - 1) % 0xFFFF + 1
  }

  /** Congruent positive numbers have the same representative. */
  lemma NormCongruent(a: nat, b: nat, k: int)
    requires a > 0 && b > 0 && a == b + k * 0xFFFF
    ensures Norm(a) == Norm(b)
  {
  }

  lemma NormOfWord(w: Word)
    ensures Norm(w) == w
  {
  }

  lemma NormStep(n: nat, w: Word)
    ensures OnesAdd(Norm(n), w) == Norm(n + w)
  {
  }

  lemma {:induction false} OnesSumIsNorm(ws: seq<Word>)
    ensures OnesSum(ws) == Norm(PlainSum(ws))
  {
    if ws != [] {
      OnesSumIsNorm(ws[..|ws| - 1]);
      NormStep(PlainSum(ws[..|ws| - 1]), ws[|ws| - 1]);
    }
  }

  // ---- The two folds ------------------------------------------------------

  /** The two folding assignments, the complement and the cut to 16 bits. */
  function FoldedComplement(sum: nat): Word {
    var once := sum / 0x1_0000 + sum % 0x1_0000;
    var twice := once + once / 0x1_0000;
    0xFFFF - twice % 0x1_0000
  }

  lemma FoldIsNorm(sum: nat)
    requires sum <= INT_MAX
    ensures FoldedComplement(sum) == 0xFFFF - Norm(sum)
  {
    var h, l := sum / 0x1_0000, sum % 0x1_0000;
    assert sum == h * 0x1_0000 + l && h < 0x8000;
    var once := h + l;
    var r := if once > 0xFFFF then once - 0xFFFF else once;
    if sum > 0 {
      assert sum == r + (if once > 0xFFFF then h + 1 else h) * 0xFFFF;
      NormCongruent(sum, r, if once > 0xFFFF then h + 1 else h);
      NormOfWord(r);
    }
  }

  // ---- Bytes and words ----------------------------------------------------

  function LowFirst(lo: Byte, hi: Byte): Word {
    var l: int, h: int := lo, hi;
    l + 0x100 * h
  }

  function WordAt(bs: seq<Byte>, i: nat): Word
    requires 2 * i < |bs|
  {
    LowFirst(bs[2 * i], if 2 * i + 1 < |bs| then bs[2 * i + 1] else 0)
  }

  /** The words of a byte string, an odd last byte padded with a zero byte. */
  function WordsOf(bs: seq<Byte>): (ws: seq<Word>)
    ensures |ws| == (|bs| + 1) / 2 && forall i :: 0 <= i < |ws| ==> ws[i] == WordAt(bs, i)
  {
    seq((|bs| + 1) / 2, i requires 0 <= i < (|bs| + 1) / 2 => WordAt(bs, i))
  }

  lemma PrefixSum(ws: seq<Word>, k: nat)
    requires k < |ws|
    ensures PlainSum(ws[..k + 1]) == PlainSum(ws[..k]) + ws[k]
  {
    assert ws[..k + 1][..k] == ws[..k];
  }

  lemma {:induction false} SumBound(ws: seq<Word>)
    ensures PlainSum(ws) <= |ws| * 0xFFFF
  {
    if ws != [] { SumBound(ws[..|ws| - 1]); }
  }

  /** The accumulator after `k` words of up to 65537 bytes fits a signed 32-bit
      integer. */
  lemma PrefixFits(bs: seq<Byte>, k: nat)
    requires |bs| <= 65537 && k <= (|bs| + 1) / 2
    ensures PlainSum(WordsOf(bs)[..k]) <= INT_MAX
  {
    var ws := WordsOf(bs);
    if k <= 32768 {
      SumBound(ws[..k]);
    } else {
      SumBound(ws[..32768]);
      PrefixSum(ws, 32768);
      assert ws[32768] == WordAt(bs, 32768) <= 255;
    }
  }

  lemma {:induction false} LargeSum(bs: seq<Byte>, k: nat)
    requires k <= |bs| / 2 && forall i :: 0 <= i < |bs| ==> bs[i] == 255
    ensures PlainSum(WordsOf(bs)[..k]) == k * 0xFFFF
  {
    if k > 0 {
      LargeSum(bs, k - 1);
      PrefixSum(WordsOf(bs), k - 1);
      assert WordsOf(bs)[k - 1] == WordAt(bs, k - 1) == 0xFFFF;
    }
  }

  /** No input of `n` bytes overflows the accumulator, at any point of the loop,
      exactly when `n` is at most 65537. */
  lemma NoOverflowUpTo(n: nat)
    ensures n <= 65537 <==>
              forall bs: seq<Byte>, k | |bs| == n && 0 <= k <= (n + 1) / 2 :: PlainSum(WordsOf(bs)[..k]) <= INT_MAX
  {
    if n <= 65537 {
      forall bs: seq<Byte>, k | |bs| == n && 0 <= k <= (n + 1) / 2 ensures PlainSum(WordsOf(bs)[..k]) <= INT_MAX {
        PrefixFits(bs, k);
      }
    } else {
      var bs: seq<Byte> := seq(n, i => 255);
      LargeSum(bs, 32769);
      assert |bs| == n && PlainSum(WordsOf(bs)[..32769]) > INT_MAX;
    }
  }

  // ---- The method ---------------------------------------------------------

  /** The bytes that are summed; a length below one selects none. */
  function Summed(addr: seq<Byte>, nLen: int): seq<Byte>
    requires nLen <= |addr|
  {
    if nLen < 0 then [] else addr[..nLen]
  }

  /** The sum stays a signed 32-bit integer, beyond which the code has no meaning. */
  predicate SumFits(addr: seq<Byte>, nLen: int)
    requires nLen <= |addr|
  {
    PlainSum(WordsOf(Summed(addr, nLen))) <= INT_MAX
  }

  /** It does for every input of up to 65537 bytes. */
  lemma ShortSumFits(addr: seq<Byte>, nLen: int)
    requires nLen <= |addr| && nLen <= 65537
    ensures SumFits(addr, nLen)
  {
    var bs := Summed(addr, nLen);
    PrefixFits(bs, (|bs| + 1) / 2);
    TakeAll(WordsOf(bs));
  }

  lemma {:induction false} PrefixIsLess(ws: seq<Word>, k: nat)
    requires k <= |ws|
    ensures PlainSum(ws[..k]) <= PlainSum(ws)
    decreases |ws| - k
  {
    if k < |ws| {
      PrefixSum(ws, k);
      PrefixIsLess(ws, k + 1);
    } else {
      TakeAll(ws);
    }
  }

  /** The loop of `check_sum` and its odd byte; the sum never exceeds a signed
      32-bit integer on the way. */
  method SumWords(addr: seq<Byte>, nLen: int) returns (nSum: int)
    requires nLen <= |addr| && SumFits(addr, nLen)
    ensures nLen >= 0 ==> nSum == PlainSum(WordsOf(addr[..nLen]))
    ensures nLen <= 0 ==> nSum == 0
    ensures 0 <= nSum <= INT_MAX
  {
    ghost var bs := Summed(addr, nLen);
    ghost var ws := WordsOf(bs);
    var nLeft, w := nLen, 0;
    nSum := 0;
    while nLeft > 1
      invariant 0 <= w <= |ws| && nLeft == nLen - 2 * w && (nLen >= 0 ==> nLeft >= 0)
      invariant nSum == PlainSum(ws[..w]) <= INT_MAX
    {
      PrefixSum(ws, w);
      PrefixIsLess(ws, w + 1);
      nSum := nSum + LowFirst(addr[2 * w], addr[2 * w + 1]);
      w := w + 1;
      nLeft := nLeft - 2;
    }
    if nLeft == 1 {
      PrefixSum(ws, w);
      PrefixIsLess(ws, w + 1);
      nSum := nSum + LowFirst(addr[2 * w], 0);
      w := w + 1;
    }
    assert ws[..w] == ws;
  }

  /** `check_sum` on the first `nLen` bytes of `addr`; a length below one sums
      nothing. */
  method CheckSum(addr: seq<Byte>, nLen: int) returns (answer: int)
    requires nLen <= |addr| && SumFits(addr, nLen)
    ensures nLen >= 0 ==> answer == Rfc1071(WordsOf(addr[..nLen]))
    ensures nLen <= 0 ==> answer == 0xFFFF
  {
    ghost var ws := WordsOf(Summed(addr, nLen));
    var nSum := SumWords(addr, nLen);
    FoldIsNorm(nSum);
    OnesSumIsNorm(ws);
    nSum := nSum / 0x1_0000 + nSum % 0x1_0000;
    nSum := nSum + nSum / 0x1_0000;
    answer := 0xFFFF - nSum % 0x1_0000;
  }

  // ---- What a checksum is for ---------------------------------------------

  lemma {:induction false} PlainSumUpdate(ws: seq<Word>, i: nat, c: Word)
    requires i < |ws|
    ensures PlainSum(ws[i := c]) == PlainSum(ws) - ws[i] + c
  {
    var k := |ws| - 1;
    if i == k {
      assert ws[i := c][..k] == ws[..k];
    } else {
      assert ws[i := c][..k] == ws[..k][i := c];
      PlainSumUpdate(ws[..k], i, c);
    }
  }

  /** Storing the checksum in a word that was zero makes a recheck return zero. */
  lemma StoredChecksumVerifies(ws: seq<Word>, i: nat)
    requires i < |ws| && ws[i] == 0
    ensures Rfc1071(ws[i := Rfc1071(ws)]) == 0
  {
    var s, c := PlainSum(ws), Rfc1071(ws);
    OnesSumIsNorm(ws);
    OnesSumIsNorm(ws[i := c]);
    PlainSumUpdate(ws, i, c);
    if s > 0 {
      NormCongruent(s + c, 0xFFFF, (s - 1) / 0xFFFF);
      assert s == Norm(s) + (s - 1) / 0xFFFF * 0xFFFF;
    }
  }

  function Swap(w: Word): Word { w % 0x100 * 0x100 + w / 0x100 }

  function SwapAll(ws: seq<Word>): seq<Word> { seq(|ws|, i requires 0 <= i < |ws| => Swap(ws[i])) }

  /** Swapping bytes multiplies by 256 modulo 65535. */
  lemma SwapTimes256(w: Word)
    ensures 0x100 * w == Swap(w) + (w / 0x100) * 0xFFFF
  {
  }

  lemma {:induction false} SwapAllSum(ws: seq<Word>) returns (k: nat)
    ensures 0x100 * PlainSum(ws) == PlainSum(SwapAll(ws)) + k * 0xFFFF
    ensures PlainSum(ws) == 0 <==> PlainSum(SwapAll(ws)) == 0
  {
    if ws == [] {
      k := 0;
    } else {
      var n := |ws| - 1;
      k := SwapAllSum(ws[..n]);
      assert SwapAll(ws)[..n] == SwapAll(ws[..n]);
      SwapTimes256(ws[n]);
      k := k + ws[n] / 0x100;
    }
  }

  lemma SwapComplement(w: Word)
    ensures Swap(0xFFFF - w) == 0xFFFF - Swap(w)
  {
  }

  /** If `t` is 256 times `s` modulo 65535, its representative is `s`'s, swapped. */
  lemma SwapNorm(s: nat, t: nat, k: nat)
    requires s > 0 && t > 0 && 0x100 * s == t + k * 0xFFFF
    ensures Norm(t) == Swap(Norm(s))
  {
    var n, q := Norm(s), (s - 1) / 0xFFFF;
    assert s == n + q * 0xFFFF;
    SwapTimes256(n);
    NormOfWord(Swap(n));
    assert t == Swap(n) + (n / 0x100 + 0x100 * q - k) * 0xFFFF;
    NormCongruent(t, Swap(n), n / 0x100 + 0x100 * q - k);
  }

  /** Byte order does not matter: byte-swapping every word byte-swaps the result. */
  lemma ByteOrderIndependent(ws: seq<Word>)
    ensures Rfc1071(SwapAll(ws)) == Swap(Rfc1071(ws))
  {
    var s, t := PlainSum(ws), PlainSum(SwapAll(ws));
    var k := SwapAllSum(ws);
    OnesSumIsNorm(ws);
    OnesSumIsNorm(SwapAll(ws));
    if s > 0 { SwapNorm(s, t, k); }
    SwapComplement(Norm(s));
  }

  lemma SwapLowFirst(lo: Byte, hi: Byte)
    ensures Swap(LowFirst(lo, hi)) == LowFirst(hi, lo)
  {
  }

  /** The words in network byte order, as the RFC writes them. */
  function NetworkWords(bs: seq<Byte>): (ws: seq<Word>) {
    seq((|bs| + 1) / 2, i requires 0 <= i < (|bs| + 1) / 2 =>
      LowFirst(if 2 * i + 1 < |bs| then bs[2 * i + 1] else 0, bs[2 * i]))
  }

  /** The host-order result, put in memory low byte first, is the network-order
      checksum. */
  lemma HostResultIsNetworkChecksum(bs: seq<Byte>)
    ensures Rfc1071(NetworkWords(bs)) == Swap(Rfc1071(WordsOf(bs)))
  {
    forall i | 0 <= i < |WordsOf(bs)| ensures NetworkWords(bs)[i] == SwapAll(WordsOf(bs))[i] {
      SwapLowFirst(bs[2 * i], if 2 * i + 1 < |bs| then bs[2 * i + 1] else 0);
    }
    assert NetworkWords(bs) == SwapAll(WordsOf(bs));
    ByteOrderIndependent(WordsOf(bs));
  }

  /** The same for bytes: a packet whose zeroed, aligned checksum field receives
      the result, low byte first, checks to zero. */
  lemma PacketVerifies(bs: seq<Byte>, i: nat)
    requires 2 * i + 1 < |bs| && bs[2 * i] == bs[2 * i + 1] == 0
    ensures var c := Rfc1071(WordsOf(bs));
            Rfc1071(WordsOf(bs[2 * i := c % 0x100][2 * i + 1 := c / 0x100])) == 0
  {
    var c := Rfc1071(WordsOf(bs));
    var sent := bs[2 * i := c % 0x100][2 * i + 1 := c / 0x100];
    assert WordsOf(sent) == WordsOf(bs)[i := c];
    StoredChecksumVerifies(WordsOf(bs), i);
  }

  /** The example of section 3 of RFC 1071, and an odd byte in either byte order. */
  lemma RfcExample()
    ensures var bs: seq<Byte> := [0x00, 0x01, 0xF2, 0x03, 0xF4, 0xF5, 0xF6, 0xF7];
            NetworkWords(bs) == [0x0001, 0xF203, 0xF4F5, 0xF6F7] && OnesSum(NetworkWords(bs)) == 0xDDF2
    ensures WordsOf([0x12]) == [0x0012] && NetworkWords([0x12]) == [0x1200]
  {
    var bs: seq<Byte> := [0x00, 0x01, 0xF2, 0x03, 0xF4, 0xF5, 0xF6, 0xF7];
    var ws: seq<Word> := [0x0001, 0xF203, 0xF4F5, 0xF6F7];
    assert NetworkWords(bs) == ws;
    PrefixSum(ws, 0);
    PrefixSum(ws, 1);
    PrefixSum(ws, 2);
    PrefixSum(ws, 3);
    TakeAll(ws);
    assert PlainSum(ws) == 0x2_DDF0;
    OnesSumIsNorm(ws);
  }
}
