/** The Internet checksum (inet_utils.c): an alignment-sensitive 32-bit loop with end-around carry,
    against the plain sum of 16-bit words (section 2 of RFC 1071). The host is little-endian.
    The single 8- and 16-bit additions of the loop do not add their carry back; `wraps` counts them. */
module InetChecksum {
  import opened Bits

  const MOD: int := 65535
  const WORD32: int := 0x1_0000_0000

  // ----- the reference: every other byte counts 256 -----

  /** Bytes i, i + 1, ... of d, in turn as low and high byte of a word, starting with a high one if odd. */
  function WordSum(odd: bool, d: seq<byte>, i: nat): nat
    decreases |d| - i
  {
    if i >= |d| then 0 else Lone(odd, d[i]) + WordSum(!odd, d, i + 1)
  }

  /** The sum of the little-endian 16-bit words of d, the last one padded with zero. */
  function EvenSum(d: seq<byte>): nat { WordSum(false, d, 0) }

  // ----- the loop -----

  datatype Acc = Acc(sum: nat, wraps: nat)

  /** sum += x on 32 bits; the carry is lost. */
  function Add(acc: Acc, x: nat): (r: Acc)
    requires acc.sum < WORD32 && x < 65536
    ensures r.sum < WORD32
  {
    if acc.sum + x < WORD32 then Acc(acc.sum + x, acc.wraps)
    else Acc(acc.sum + x - WORD32, acc.wraps + 1)
  }

  /** 32-bit addition that adds the carry bit back. */
  function AddCarry(acc: Acc, x: nat): (r: Acc)
    requires acc.sum < WORD32 && x < WORD32
    ensures r.sum < WORD32
  {
    if acc.sum + x < WORD32 then Acc(acc.sum + x, acc.wraps)
    else Acc(acc.sum + x - WORD32 + 1, acc.wraps)
  }

  /** A loaded 16-bit word, with its bytes swapped when the string began at an odd address. */
  function Word16(odd: bool, b0: byte, b1: byte): (x: nat)
    ensures x < 65536
  {
    if odd then 256 * b0 + b1 else b0 + 256 * b1
  }

  /** A last single byte. */
  function Lone(odd: bool, b: byte): (x: nat)
    ensures x < 65536
  {
    if odd then 256 * b else b
  }

  function Word32(odd: bool, b0: byte, b1: byte, b2: byte, b3: byte): (x: nat)
    ensures x < WORD32
  {
    if odd then 65536 * Word16(true, b0, b1) + Word16(true, b2, b3)
    else Word16(false, b0, b1) + 65536 * Word16(false, b2, b3)
  }

  function Tail(odd: bool, d: seq<byte>, i: nat, acc: Acc): (r: Acc)
    requires acc.sum < WORD32
    ensures r.sum < WORD32
    decreases |d| - i
  {
    if |d| - i > 1 then Tail(odd, d, i + 2, Add(acc, Word16(odd, d[i], d[i + 1])))
    else if |d| - i == 1 then Add(acc, Lone(odd, d[i]))
    else acc
  }

  /** `misaligned`: the address of byte i is not yet a multiple of 4. */
  function Bulk(odd: bool, misaligned: bool, d: seq<byte>, i: nat, acc: Acc): (r: Acc)
    requires acc.sum < WORD32
    ensures r.sum < WORD32
    decreases |d| - i
  {
    if misaligned && |d| - i >= 2 then Bulk(odd, false, d, i + 2, Add(acc, Word16(odd, d[i], d[i + 1])))
    else if |d| - i > 3 then
      Bulk(odd, false, d, i + 4, AddCarry(acc, Word32(odd, d[i], d[i + 1], d[i + 2], d[i + 3])))
    else Tail(odd, d, i, acc)
  }

  /** csum_partial on the bytes d at an address that is `align` modulo 4. */
  function CsumPartial(align: nat, d: seq<byte>, sum: nat): (r: Acc)
    requires align < 4 && sum < WORD32
    ensures r.sum < WORD32
  {
    if d == [] then Acc(sum, 0)
    else if align % 2 == 1 then Bulk(true, align == 1, d, 1, Add(Acc(sum, 0), d[0]))
    else Bulk(false, align == 2, d, 0, Acc(sum, 0))
  }

  /** The loop as it runs: one pass over the bytes, 4 at a time once the address is aligned. */
  method CsumPartialLoop(align: nat, d: seq<byte>, sum0: nat) returns (sum: nat, ghost wraps: nat)
    requires align < 4 && sum0 < WORD32
    ensures Acc(sum, wraps) == CsumPartial(align, d, sum0)
  {
    sum, wraps := sum0, 0;
    if |d| == 0 { return; }
    var i, address := 0, align;
    var odd := align % 2 == 1;
    if odd {
      sum, wraps := AddPlain(sum, wraps, d[0]);
      i, address := 1, address + 1;
    }
    sum, wraps := AlignLoop(odd, address, d, i, sum, wraps);
  }

  method AddPlain(sum0: nat, ghost wraps0: nat, x: nat) returns (sum: nat, ghost wraps: nat)
    requires sum0 < WORD32 && x < 65536
    ensures Acc(sum, wraps) == Add(Acc(sum0, wraps0), x)
  {
    sum := (sum0 + x) % WORD32;
    wraps := Add(Acc(sum0, wraps0), x).wraps;
  }

  method AlignLoop(odd: bool, address: nat, d: seq<byte>, start: nat, sum0: nat, ghost wraps0: nat)
    returns (sum: nat, ghost wraps: nat)
    requires start <= |d| && sum0 < WORD32
    ensures Acc(sum, wraps) == Bulk(odd, address % 4 != 0, d, start, Acc(sum0, wraps0))
  {
    sum, wraps := sum0, wraps0;
    var i := start;
    if |d| - i >= 2 && address % 4 != 0 {
      sum, wraps := AddPlain(sum, wraps, Word16(odd, d[i], d[i + 1]));
      i := i + 2;
    }
    sum, wraps := BulkLoop(odd, d, i, sum, wraps);
  }

  method BulkLoop(odd: bool, d: seq<byte>, start: nat, sum0: nat, ghost wraps: nat)
    returns (sum: nat, ghost wraps': nat)
    requires start <= |d| && sum0 < WORD32
    ensures Acc(sum, wraps') == Bulk(odd, false, d, start, Acc(sum0, wraps))
  {
    ghost var goal := Bulk(odd, false, d, start, Acc(sum0, wraps));
    sum := sum0;
    var i := start;
    while |d| - i > 3
      invariant start <= i <= |d| && sum < WORD32
      invariant Bulk(odd, false, d, i, Acc(sum, wraps)) == goal
    {
      sum := AddWithCarry(sum, Word32(odd, d[i], d[i + 1], d[i + 2], d[i + 3]), wraps);
      i := i + 4;
    }
    sum, wraps' := TailLoop(odd, d, i, sum, wraps);
  }

  method AddWithCarry(sum0: nat, x: nat, ghost wraps: nat) returns (sum: nat)
    requires sum0 < WORD32 && x < WORD32
    ensures Acc(sum, wraps) == AddCarry(Acc(sum0, wraps), x)
  {
    sum := (sum0 + x) % WORD32;
    if sum0 + x >= WORD32 { sum := sum + 1; }
  }

  method TailLoop(odd: bool, d: seq<byte>, start: nat, sum0: nat, ghost wraps0: nat)
    returns (sum: nat, ghost wraps: nat)
    requires start <= |d| && sum0 < WORD32
    ensures Acc(sum, wraps) == Tail(odd, d, start, Acc(sum0, wraps0))
  {
    ghost var goal := Tail(odd, d, start, Acc(sum0, wraps0));
    sum, wraps := sum0, wraps0;
    var i := start;
    while |d| - i > 1
      invariant start <= i <= |d| && sum < WORD32
      invariant Tail(odd, d, i, Acc(sum, wraps)) == goal
    {
      sum, wraps := AddPlain(sum, wraps, Word16(odd, d[i], d[i + 1]));
      i := i + 2;
    }
    if |d| - i == 1 {
      sum, wraps := AddPlain(sum, wraps, Lone(odd, d[i]));
    }
  }

  // ----- the loop refines the reference -----

  function Times(k: int): int { k * MOD }

  /** Equal modulo 65535. */
  ghost predicate Congruent(x: int, y: int) { exists k :: x == y + Times(k) }

  lemma {:induction false} CongruentIsMod(x: int, y: int)
    ensures Congruent(x, y) <==> (x - y) % MOD == 0
  {
    if (x - y) % MOD == 0 {
      assert x == y + Times((x - y) / MOD);
    }
    if Congruent(x, y) {
      var k :| x == y + Times(k);
      assert x - y == k * MOD;
    }
  }

  /** From acc to r exactly x was added, up to multiples of 65535 and the lost carries; and without
      lost carries the sum is zero only if nothing but zeros was added to zero. */
  ghost predicate Added(acc: Acc, x: nat, r: Acc) {
    Congruent(r.sum + r.wraps, acc.sum + acc.wraps + x) &&
    r.wraps >= acc.wraps && (r.wraps == acc.wraps ==> (r.sum == 0 <==> acc.sum == 0 && x == 0))
  }

  lemma {:induction false} NothingAdded(acc: Acc)
    ensures Added(acc, 0, acc)
  {
    assert acc.sum + acc.wraps == acc.sum + acc.wraps + 0 + Times(0);
  }

  lemma {:induction false} PlainAdds(acc: Acc, x: nat)
    requires acc.sum < WORD32 && x < 65536
    ensures Added(acc, x, Add(acc, x))
  {
    var r := Add(acc, x);
    var k := if acc.sum + x < WORD32 then 0 else -65537;
    assert r.sum + r.wraps == acc.sum + acc.wraps + x + Times(k);
  }

  /** A 32-bit word counts as the sum of its halves. */
  lemma {:induction false} CarryAdds(acc: Acc, lo: nat, hi: nat)
    requires acc.sum < WORD32 && lo < 65536 && hi < 65536
    ensures Added(acc, lo + hi, AddCarry(acc, lo + 65536 * hi))
  {
    var r := AddCarry(acc, lo + 65536 * hi);
    var k := if acc.sum + lo + 65536 * hi < WORD32 then hi else hi - 65537;
    assert r.sum + r.wraps == acc.sum + acc.wraps + lo + hi + Times(k);
  }

  lemma {:induction false} AddedTrans(a: Acc, x: nat, b: Acc, y: nat, c: Acc)
    requires Added(a, x, b) && Added(b, y, c)
    ensures Added(a, x + y, c)
  {
    var k1 :| b.sum + b.wraps == a.sum + a.wraps + x + Times(k1);
    var k2 :| c.sum + c.wraps == b.sum + b.wraps + y + Times(k2);
    assert c.sum + c.wraps == a.sum + a.wraps + (x + y) + Times(k1 + k2);
  }

  lemma {:induction false} TailAdds(odd: bool, d: seq<byte>, i: nat, acc: Acc)
    requires acc.sum < WORD32
    ensures Added(acc, WordSum(odd, d, i), Tail(odd, d, i, acc))
    decreases |d| - i
  {
    if |d| - i > 1 {
      var x := Word16(odd, d[i], d[i + 1]);
      PlainAdds(acc, x);
      TailAdds(odd, d, i + 2, Add(acc, x));
      AddedTrans(acc, x, Add(acc, x), WordSum(odd, d, i + 2), Tail(odd, d, i, acc));
      SplitTwo(odd, d, i);
    } else if |d| - i == 1 {
      assert WordSum(!odd, d, i + 1) == 0;
      PlainAdds(acc, Lone(odd, d[i]));
    } else {
      NothingAdded(acc);
    }
  }

  lemma {:induction false} SplitTwo(odd: bool, d: seq<byte>, i: nat)
    requires i + 2 <= |d|
    ensures WordSum(odd, d, i) == Word16(odd, d[i], d[i + 1]) + WordSum(odd, d, i + 2)
  {
    assert WordSum(!odd, d, i + 1) == Lone(!odd, d[i + 1]) + WordSum(odd, d, i + 2);
  }

  lemma {:induction false} BulkAdds(odd: bool, misaligned: bool, d: seq<byte>, i: nat, acc: Acc)
    requires acc.sum < WORD32
    ensures Added(acc, WordSum(odd, d, i), Bulk(odd, misaligned, d, i, acc))
    decreases |d| - i
  {
    if misaligned && |d| - i >= 2 {
      var x := Word16(odd, d[i], d[i + 1]);
      PlainAdds(acc, x);
      BulkAdds(odd, false, d, i + 2, Add(acc, x));
      AddedTrans(acc, x, Add(acc, x), WordSum(odd, d, i + 2), Bulk(odd, misaligned, d, i, acc));
      SplitTwo(odd, d, i);
    } else if |d| - i > 3 {
      var x := Word32(odd, d[i], d[i + 1], d[i + 2], d[i + 3]);
      var x1, x2 := Word16(odd, d[i], d[i + 1]), Word16(odd, d[i + 2], d[i + 3]);
      if odd { CarryAdds(acc, x2, x1); } else { CarryAdds(acc, x1, x2); }
      BulkAdds(odd, false, d, i + 4, AddCarry(acc, x));
      AddedTrans(acc, x1 + x2, AddCarry(acc, x), WordSum(odd, d, i + 4), Bulk(odd, misaligned, d, i, acc));
      SplitTwo(odd, d, i);
      SplitTwo(odd, d, i + 2);
    } else {
      TailAdds(odd, d, i, acc);
    }
  }

  /** For every byte string, alignment and initial sum: the loop's result is the initial sum plus the
      16-bit word sum modulo 65535, less the carries lost by the single additions. */
  lemma {:induction false} PartialIsWordSum(align: nat, d: seq<byte>, sum: nat)
    requires align < 4 && sum < WORD32
    ensures Added(Acc(sum, 0), EvenSum(d), CsumPartial(align, d, sum))
  {
    if d == [] {
      NothingAdded(Acc(sum, 0));
    } else if align % 2 == 1 {
      var a1 := Add(Acc(sum, 0), d[0]);
      PlainAdds(Acc(sum, 0), d[0]);
      BulkAdds(true, align == 1, d, 1, a1);
      AddedTrans(Acc(sum, 0), d[0], a1, WordSum(true, d, 1), CsumPartial(align, d, sum));
    } else {
      BulkAdds(false, align == 2, d, 0, Acc(sum, 0));
    }
  }

  // ----- folding -----

  /** The two folding steps of csum_fold, before the complement. */
  function Fold(sum: nat): (r: nat)
    requires sum < WORD32
    ensures r < 65536
  {
    var once := sum % 65536 + sum / 65536;
    once % 65536 + once / 65536
  }

  /** Two steps always suffice: the fold is on 16 bits, congruent to the sum, and zero only for zero. */
  lemma {:induction false} FoldIsOnesComplement(sum: nat)
    requires sum < WORD32
    ensures Congruent(sum, Fold(sum)) && (Fold(sum) == 0 <==> sum == 0)
  {
    var once := sum % 65536 + sum / 65536;
    assert sum == Fold(sum) + Times(sum / 65536 + once / 65536);
  }

  /** That determines it. */
  lemma {:induction false} SameFold(a: nat, b: nat)
    requires a < WORD32 && b < WORD32 && Congruent(a, b) && (a == 0 <==> b == 0)
    ensures Fold(a) == Fold(b)
  {
    FoldIsOnesComplement(a);
    FoldIsOnesComplement(b);
    var k :| a == b + Times(k);
    var k1 :| a == Fold(a) + Times(k1);
    var k2 :| b == Fold(b) + Times(k2);
    OnlyMultiple(Fold(a), Fold(b), k + k2 - k1);
  }

  lemma {:induction false} OnlyMultiple(x: int, y: int, k: int)
    requires x == y + Times(k) && 0 <= x <= MOD && 0 <= y <= MOD && (x == 0 <==> y == 0)
    ensures x == y
  {
  }

  /** csum_fold: complement, then to network byte order. */
  function CsumFold(sum: nat): (r: nat)
    requires sum < WORD32
    ensures r < 65536
  {
    var c := 65535 - Fold(sum);
    c % 256 * 256 + c / 256
  }

  /** Without lost carries the folded checksum does not depend on where the bytes lie in memory. */
  lemma {:induction false} AlignmentDoesNotMatter(a1: nat, a2: nat, d: seq<byte>, sum: nat)
    requires a1 < 4 && a2 < 4 && sum < WORD32
    requires CsumPartial(a1, d, sum).wraps == 0 == CsumPartial(a2, d, sum).wraps
    ensures CsumFold(CsumPartial(a1, d, sum).sum) == CsumFold(CsumPartial(a2, d, sum).sum)
  {
    PartialIsWordSum(a1, d, sum);
    PartialIsWordSum(a2, d, sum);
    SameAddition(Acc(sum, 0), EvenSum(d), CsumPartial(a1, d, sum), CsumPartial(a2, d, sum));
  }

  lemma {:induction false} SameAddition(acc: Acc, x: nat, r1: Acc, r2: Acc)
    requires Added(acc, x, r1) && Added(acc, x, r2) && r1.wraps == acc.wraps == r2.wraps
    requires r1.sum < WORD32 && r2.sum < WORD32
    ensures CsumFold(r1.sum) == CsumFold(r2.sum)
  {
    var k1 :| r1.sum + r1.wraps == acc.sum + acc.wraps + x + Times(k1);
    var k2 :| r2.sum + r2.wraps == acc.sum + acc.wraps + x + Times(k2);
    assert r1.sum == r2.sum + Times(k1 - k2);
    SameFold(r1.sum, r2.sum);
  }

  /** A lost carry does matter: these six bytes sum to 1 (folded) at one address and to 0 at another. */
  lemma {:induction false} LostCarryShows()
    ensures var d: seq<byte> := [255, 255, 255, 255, 1, 0];
            CsumPartial(0, d, 0) == Acc(0, 1) && CsumPartial(2, d, 0) == Acc(0x2fffe, 0) &&
            CsumFold(0) != CsumFold(0x2fffe)
  {
    var d: seq<byte> := [255, 255, 255, 255, 1, 0];
    assert Tail(false, d, 4, Acc(0xffff_ffff, 0)) == Acc(0, 1);
    assert Bulk(false, false, d, 0, Acc(0, 0)) == Tail(false, d, 4, Acc(0xffff_ffff, 0));
    assert Bulk(false, false, d, 2, Acc(0xffff, 0)) == Acc(0x2fffe, 0);
  }

  lemma {:induction false} TailWraps(odd: bool, d: seq<byte>, i: nat, acc: Acc)
    requires acc.sum < WORD32 && i <= |d|
    ensures Tail(odd, d, i, acc).wraps <= acc.wraps + |d| - i
    decreases |d| - i
  {
    if |d| - i > 1 { TailWraps(odd, d, i + 2, Add(acc, Word16(odd, d[i], d[i + 1]))); }
  }

  lemma {:induction false} BulkWraps(odd: bool, misaligned: bool, d: seq<byte>, i: nat, acc: Acc)
    requires acc.sum < WORD32 && i <= |d|
    ensures Bulk(odd, misaligned, d, i, acc).wraps <= acc.wraps + (if misaligned then 4 else 3)
    decreases |d| - i
  {
    if misaligned && |d| - i >= 2 {
      BulkWraps(odd, false, d, i + 2, Add(acc, Word16(odd, d[i], d[i + 1])));
    } else if |d| - i > 3 {
      BulkWraps(odd, false, d, i + 4, AddCarry(acc, Word32(odd, d[i], d[i + 1], d[i + 2], d[i + 3])));
    } else {
      TailWraps(odd, d, i, acc);
    }
  }

  /** One call loses at most five carries. */
  lemma {:induction false} FewWraps(align: nat, d: seq<byte>, sum: nat)
    requires align < 4 && sum < WORD32
    ensures CsumPartial(align, d, sum).wraps <= 5
  {
    if d != [] {
      if align % 2 == 1 { BulkWraps(true, align == 1, d, 1, Add(Acc(sum, 0), d[0])); }
      else { BulkWraps(false, align == 2, d, 0, Acc(sum, 0)); }
    }
  }

  // ----- when no carry is lost -----

  /** The bytes before the first 4-byte boundary, as far as the loop takes them singly. */
  function HeadLength(align: nat, len: nat): (n: nat)
    ensures n <= len && n <= 3
  {
    if len == 0 then 0 else
    var first := align % 2;
    if (align == 1 || align == 2) && len - first >= 2 then first + 2 else first
  }

  /** What those bytes add. */
  function HeadSum(align: nat, d: seq<byte>): nat {
    var odd := align % 2 == 1;
    var first: nat := if odd then 1 else 0;
    (if odd && |d| > 0 then d[0] as nat else 0) + (if align == 1 || align == 2 then Extra(odd, d, first) else 0)
  }

  /** The 16-bit word at i, if there is one. */
  function Extra(odd: bool, d: seq<byte>, i: nat): nat {
    if |d| - i >= 2 then Word16(odd, d[i], d[i + 1]) else 0
  }

  /** The sum of the 32-bit words from byte i on. */
  function Words32(odd: bool, d: seq<byte>, i: nat): nat
    decreases |d| - i
  {
    if |d| - i > 3 then Word32(odd, d[i], d[i + 1], d[i + 2], d[i + 3]) + Words32(odd, d, i + 4) else 0
  }

  /** Where those words end. */
  function TailStart(len: nat, i: nat): (q: nat)
    requires i <= len
    ensures i <= q <= len < q + 4
  {
    i + (len - i) / 4 * 4
  }

  /** The 32-bit sum with end-around carry of words whose plain sum is t. */
  function EndAround(t: nat): (r: nat)
    ensures r < WORD32
  {
    if t == 0 then 0 else (t - 1) % (WORD32 - 1) + 1
  }

  /** Neither the words before the first boundary nor those after the last overflow 32 bits. */
  predicate KeepsCarries(align: nat, d: seq<byte>, sum: nat)
    requires align < 4
  {
    var p, odd := HeadLength(align, |d|), align % 2 == 1;
    var head := HeadSum(align, d);
    NoOverflow(sum + head, Words32(odd, d, p), WordSum(odd, d, TailStart(|d|, p)))
  }

  lemma {:induction false} EndAroundSmall(t: nat)
    requires t < WORD32
    ensures EndAround(t) == t
  {
  }

  lemma {:induction false} EndAroundAdds(a: nat, x: nat, rest: nat)
    requires a < WORD32 && x < WORD32
    ensures EndAround(AddCarry(Acc(a, 0), x).sum + rest) == EndAround(a + x + rest)
  {
    if a + x >= WORD32 { OnceRound(a + x + rest - 1); }
  }

  lemma {:induction false} OnceRound(k: int)
    ensures k % (WORD32 - 1) == (k - (WORD32 - 1)) % (WORD32 - 1)
  {
  }

  lemma {:induction false} TailGrows(odd: bool, d: seq<byte>, i: nat, acc: Acc)
    requires acc.sum < WORD32
    ensures Tail(odd, d, i, acc).wraps >= acc.wraps
    ensures Tail(odd, d, i, acc).wraps == acc.wraps <==> acc.sum + WordSum(odd, d, i) < WORD32
    decreases |d| - i
  {
    if |d| - i > 1 {
      TailGrows(odd, d, i + 2, Add(acc, Word16(odd, d[i], d[i + 1])));
      SplitTwo(odd, d, i);
    } else if |d| - i == 1 {
      assert WordSum(!odd, d, i + 1) == 0;
    }
  }

  lemma {:induction false} NextTail(len: nat, i: nat)
    requires i + 4 <= len
    ensures TailStart(len, i) == TailStart(len, i + 4)
  {
  }

  lemma {:induction false} WordGoesIn(acc: Acc, x: nat, rest: nat)
    requires acc.sum < WORD32 && x < WORD32
    ensures AddCarry(acc, x).wraps == acc.wraps
    ensures EndAround(AddCarry(acc, x).sum + rest) == EndAround(acc.sum + (x + rest))
  {
    EndAroundAdds(acc.sum, x, rest);
  }

  lemma {:induction false} EndGrows(odd: bool, d: seq<byte>, i: nat, acc: Acc)
    requires acc.sum < WORD32 && i <= |d| <= i + 3
    ensures Bulk(odd, false, d, i, acc).wraps >= acc.wraps
    ensures Bulk(odd, false, d, i, acc).wraps == acc.wraps <==>
            EndAround(acc.sum + Words32(odd, d, i)) + WordSum(odd, d, TailStart(|d|, i)) < WORD32
  {
    TailGrows(odd, d, i, acc);
    EndAroundSmall(acc.sum);
  }

  /** What BulkGrows says of one accumulator, in numbers. */
  lemma {:induction false} SameCondition(acc: Acc, x: nat, rest: nat, tail: nat, wraps: nat)
    requires acc.sum < WORD32 && x < WORD32
    requires var next := AddCarry(acc, x);
             wraps >= next.wraps && (wraps == next.wraps <==> EndAround(next.sum + rest) + tail < WORD32)
    ensures wraps >= acc.wraps && (wraps == acc.wraps <==> EndAround(acc.sum + (x + rest)) + tail < WORD32)
  {
    WordGoesIn(acc, x, rest);
  }

  lemma {:induction false} BulkGrows(odd: bool, d: seq<byte>, i: nat, acc: Acc)
    requires acc.sum < WORD32 && i <= |d|
    ensures Bulk(odd, false, d, i, acc).wraps >= acc.wraps
    ensures Bulk(odd, false, d, i, acc).wraps == acc.wraps <==>
            EndAround(acc.sum + Words32(odd, d, i)) + WordSum(odd, d, TailStart(|d|, i)) < WORD32
    decreases |d| - i
  {
    if |d| - i > 3 {
      var x := Word32(odd, d[i], d[i + 1], d[i + 2], d[i + 3]);
      BulkGrows(odd, d, i + 4, AddCarry(acc, x));
      NextTail(|d|, i);
      SameCondition(acc, x, Words32(odd, d, i + 4), WordSum(odd, d, TailStart(|d|, i)),
                    Bulk(odd, false, d, i + 4, AddCarry(acc, x)).wraps);
    } else {
      EndGrows(odd, d, i, acc);
    }
  }

  lemma {:induction false} HeadCondition(acc: Acc, head: nat, words: nat, tail: nat, wraps: nat)
    requires acc.sum < WORD32 && head < 65536
    requires var a := Add(acc, head);
             wraps >= a.wraps && (wraps == a.wraps <==> EndAround(a.sum + words) + tail < WORD32)
    ensures wraps >= acc.wraps && (wraps == acc.wraps <==> NoOverflow(acc.sum + head, words, tail))
  {
  }

  /** From an odd or even address, with or without the extra 16-bit word. */
  lemma {:induction false} HeadGrows(odd: bool, misaligned: bool, d: seq<byte>, i: nat, acc: Acc)
    requires acc.sum < WORD32 && i <= |d|
    ensures var p := if misaligned && |d| - i >= 2 then i + 2 else i;
            var head := if misaligned then Extra(odd, d, i) else 0;
            Bulk(odd, misaligned, d, i, acc).wraps >= acc.wraps &&
            (Bulk(odd, misaligned, d, i, acc).wraps == acc.wraps <==>
             NoOverflow(acc.sum + head, Words32(odd, d, p), WordSum(odd, d, TailStart(|d|, p))))
  {
    if misaligned && |d| - i >= 2 {
      var head := Word16(odd, d[i], d[i + 1]);
      BulkGrows(odd, d, i + 2, Add(acc, head));
      HeadCondition(acc, head, Words32(odd, d, i + 2), WordSum(odd, d, TailStart(|d|, i + 2)),
                    Bulk(odd, false, d, i + 2, Add(acc, head)).wraps);
    } else {
      BulkGrows(odd, d, i, acc);
    }
  }

  /** The two conditions, for a given head and given words behind it. */
  predicate NoOverflow(start: nat, words: nat, tail: nat) {
    start < WORD32 && EndAround(start + words) + tail < WORD32
  }

  lemma {:induction false} OddShows(align: nat, d: seq<byte>, sum: nat)
    requires (align == 1 || align == 3) && sum < WORD32 && d != []
    ensures CsumPartial(align, d, sum).wraps == 0 <==> KeepsCarries(align, d, sum)
  {
    OddParts(align, d, sum);
    HeadGrows(true, align == 1, d, 1, Add(Acc(sum, 0), d[0]));
  }

  lemma {:induction false} OddParts(align: nat, d: seq<byte>, sum: nat)
    requires (align == 1 || align == 3) && sum < WORD32 && d != []
    ensures CsumPartial(align, d, sum) == Bulk(true, align == 1, d, 1, Add(Acc(sum, 0), d[0]))
    ensures HeadLength(align, |d|) == if align == 1 && |d| >= 3 then 3 else 1
    ensures HeadSum(align, d) == d[0] as nat + (if align == 1 then Extra(true, d, 1) else 0)
  {
  }

  lemma {:induction false} EvenShows(align: nat, d: seq<byte>, sum: nat)
    requires (align == 0 || align == 2) && sum < WORD32 && d != []
    ensures CsumPartial(align, d, sum).wraps == 0 <==> KeepsCarries(align, d, sum)
  {
    EvenHead(align, d);
    KeepsWith(align, d, sum, HeadLength(align, |d|), HeadSum(align, d));
    HeadGrows(false, align == 2, d, 0, Acc(sum, 0));
  }

  lemma {:induction false} EvenHead(align: nat, d: seq<byte>)
    requires (align == 0 || align == 2) && d != []
    ensures HeadLength(align, |d|) == if align == 2 && |d| >= 2 then 2 else 0
    ensures HeadSum(align, d) == if align == 2 then Extra(false, d, 0) else 0
  {
  }

  lemma {:induction false} KeepsWith(align: nat, d: seq<byte>, sum: nat, p: nat, head: nat)
    requires (align == 0 || align == 2) && p == HeadLength(align, |d|) && head == HeadSum(align, d)
    ensures KeepsCarries(align, d, sum) <==>
            NoOverflow(sum + head, Words32(false, d, p), WordSum(false, d, TailStart(|d|, p)))
  {
  }

  /** Whether carries are lost can be told from the data: the head must not overflow, nor the tail. */
  lemma {:induction false} LostCarriesShow(align: nat, d: seq<byte>, sum: nat)
    requires align < 4 && sum < WORD32
    ensures CsumPartial(align, d, sum).wraps == 0 <==> KeepsCarries(align, d, sum)
  {
    if d == [] {
      EndAroundSmall(sum);
    } else if align % 2 == 1 {
      OddShows(align, d, sum);
    } else {
      EvenShows(align, d, sum);
    }
  }

  /** Whole 32-bit words at a 4-byte boundary never lose a carry. */
  lemma {:induction false} AlignedIsSafe(d: seq<byte>, sum: nat)
    requires |d| % 4 == 0 && sum < WORD32
    ensures CsumPartial(0, d, sum).wraps == 0
  {
    LostCarriesShow(0, d, sum);
    assert TailStart(|d|, 0) == |d|;
  }

  /** The result agrees with the 16-bit word sum modulo 65535 exactly when no carry is lost. */
  lemma {:induction false} ExactWithoutLostCarries(align: nat, d: seq<byte>, sum: nat)
    requires align < 4 && sum < WORD32
    ensures (CsumPartial(align, d, sum).sum - (sum + EvenSum(d))) % MOD == 0 <==> KeepsCarries(align, d, sum)
  {
    var r := CsumPartial(align, d, sum);
    PartialIsWordSum(align, d, sum);
    FewWraps(align, d, sum);
    LostCarriesCount(Acc(sum, 0), EvenSum(d), r);
    LostCarriesShow(align, d, sum);
    CongruentIsMod(r.sum, sum + EvenSum(d));
  }

  lemma {:induction false} LostCarriesCount(acc: Acc, x: nat, r: Acc)
    requires Added(acc, x, r) && acc.wraps == 0 && r.wraps < MOD
    ensures Congruent(r.sum, acc.sum + x) <==> r.wraps == 0
  {
    var k :| r.sum + r.wraps == acc.sum + acc.wraps + x + Times(k);
    if Congruent(r.sum, acc.sum + x) {
      var k2 :| r.sum == acc.sum + x + Times(k2);
      assert r.wraps == Times(k - k2);
    }
  }
}
