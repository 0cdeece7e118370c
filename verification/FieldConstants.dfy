/** Constants for header fields (conf_utils.c): numbers placed at a field's bit offset, and address
    prefixes with their tail cleared. */
module FieldConstants {
  import opened Bits
  import opened FieldAccess

  /** Position of the highest set bit, 0 for 0. */
  function TopBit(x: nat): nat { if x / 2 == 0 then 0 else 1 + TopBit(x / 2) }

  lemma {:induction false} TopBitBounds(x: nat)
    ensures x < Pow2(TopBit(x) + 1) && (x > 0 ==> Pow2(TopBit(x)) <= x)
  {
    if x / 2 != 0 { TopBitBounds(x / 2); }
  }

  lemma {:induction false} NoHighBits(x: nat, n: nat, j: nat)
    requires x < Pow2(n) && n <= j
    ensures !BitAt(x, j)
  {
    if n == 0 { NoBits(j); } else { NoHighBits(x / 2, n - 1, j - 1); }
  }

  method HighestSetBit(num: nat) returns (r: nat)
    ensures num < Pow2(r + 1) && (num > 0 ==> Pow2(r) <= num) && (num == 0 ==> r == 0)
  {
    r := 0;
    var x := num;
    while x / 2 != 0
      invariant r + TopBit(x) == TopBit(num)
    {
      x := x / 2;
      r := r + 1;
    }
    TopBitBounds(num);
  }

  /** Byte b of a constant of `size` bytes holds its part of num, which ends `pad` bits before the end. */
  ghost predicate HoldsPart(buf: seq<byte>, pad: nat, num: nat, b: nat)
    requires b < |buf|
  {
    forall i :: 0 <= i < 8 ==> (Msb(buf[b], i) <==> WeightSet(num, 8 * (|buf| - 1 - b) + 7 - i - pad))
  }

  predicate WeightSet(num: nat, j: int) { j >= 0 && BitAt(num, j) }

  lemma {:induction false} LastByte(num: nat, pad: nat, i: nat)
    requires i < 8
    ensures Msb(Char(Shl(num, pad)), i) <==> WeightSet(num, 7 - i - pad)
  {
    BitChar(Shl(num, pad), 7 - i);
    BitShl(num, pad, 7 - i);
  }

  lemma {:induction false} InnerByte(num: nat, written: nat, i: nat)
    requires i < 8
    ensures Msb(Char(Shr(num, written)), i) <==> WeightSet(num, written + 7 - i)
  {
    BitChar(Shr(num, written), 7 - i);
    BitShr(num, written, 7 - i);
  }

  /** The bits of num, most significant first, at the value's offset, and zeros around them. */
  ghost predicate IsConstant(v: Value, num: nat) {
    v.offset + v.count <= 8 * |v.bytes| &&
    forall k :: 0 <= k < 8 * |v.bytes| ==>
      (Bit(v.bytes, k) <==> v.offset <= k && WeightSet(num, v.offset + v.count - 1 - k))
  }

  /** prepare_constant_number: fills the buffer from its last byte backwards. */
  method PrepareConstantNumber(offset: nat, count: nat, num: nat) returns (ok: bool, v: Value)
    ensures ok <==> count >= 1 && num < Pow2(count)
    ensures ok ==> v.offset == offset % 8 && v.count == count && |v.bytes| == (offset % 8 + count + 7) / 8
    ensures ok ==> IsConstant(v, num)
  {
    var top := HighestSetBit(num);
    var numBits := top + 1;
    v := Value([], 0, 0);
    FitsExactly(num, top, count);
    if numBits > count { return false, v; }
    var total := offset % 8 + count;
    var size := (total + 7) / 8;
    var buf := new byte[size](i => 0);
    var pad := size * 8 - total;
    var idx := size - 1;
    buf[idx] := Char(Shl(num, pad));
    forall i | 0 <= i < 8
      ensures Msb(buf[idx], i) <==> WeightSet(num, 7 - i - pad)
    {
      LastByte(num, pad, i);
    }
    var written := 8 - pad;
    idx := idx - 1;
    while written < numBits
      invariant -1 <= idx < size - 1 && written == 8 * (size - 1 - idx) - pad
      invariant forall b :: 0 <= b <= idx ==> buf[b] == 0
      invariant forall b :: idx < b < size ==> HoldsPart(buf[..], pad, num, b)
      decreases idx
    {
      ghost var before := buf[..];
      buf[idx] := Char(Shr(num, written));
      forall i | 0 <= i < 8
        ensures Msb(buf[idx], i) <==> WeightSet(num, written + 7 - i)
      {
        InnerByte(num, written, i);
      }
      assert forall b :: idx < b < size ==> HoldsPart(before, pad, num, b) && buf[..][b] == before[b];
      written, idx := written + 8, idx - 1;
    }
    v := Value(buf[..], offset % 8, count);
    PartsMakeConstant(v, pad, num, idx, numBits);
    ok := true;
  }

  lemma {:induction false} FitsExactly(num: nat, top: nat, count: nat)
    requires num < Pow2(top + 1) && (num > 0 ==> Pow2(top) <= num) && (num == 0 ==> top == 0)
    ensures top + 1 <= count <==> count >= 1 && num < Pow2(count)
  {
    if top + 1 <= count { PowGrows(top + 1, count); } else { PowGrows(count, top); }
  }

  lemma {:induction false} PartsMakeConstant(v: Value, pad: nat, num: nat, idx: int, numBits: nat)
    requires v.offset + v.count + pad == 8 * |v.bytes| && v.offset < 8 && -1 <= idx < |v.bytes|
    requires num < Pow2(numBits) && numBits <= v.count && numBits <= 8 * (|v.bytes| - 1 - idx) - pad
    requires forall b :: 0 <= b <= idx ==> v.bytes[b] == 0
    requires forall b :: idx < b < |v.bytes| ==> HoldsPart(v.bytes, pad, num, b)
    ensures IsConstant(v, num)
  {
    forall k | 0 <= k < 8 * |v.bytes|
      ensures Bit(v.bytes, k) <==> v.offset <= k && WeightSet(num, v.offset + v.count - 1 - k)
    {
      var j := v.offset + v.count - 1 - k;
      if numBits <= j { NoHighBits(num, numBits, j); }
      if k / 8 <= idx {
        NoBits(7 - k % 8);
      } else {
        assert HoldsPart(v.bytes, pad, num, k / 8);
        assert 8 * (|v.bytes| - 1 - k / 8) + 7 - k % 8 - pad == j;
      }
    }
  }

  /** The field's bits as a big-endian number. */
  function FieldNumber(buf: seq<byte>, at: nat, count: nat): nat
    requires at + count <= 8 * |buf|
  {
    if count == 0 then 0
    else 2 * FieldNumber(buf, at, count - 1) + (if Bit(buf, at + count - 1) then 1 else 0)
  }

  lemma {:induction false} BitsMakeNumber(buf: seq<byte>, at: nat, count: nat, num: nat)
    requires at + count <= 8 * |buf| && num < Pow2(count)
    requires forall k :: at <= k < at + count ==> (Bit(buf, k) <==> BitAt(num, at + count - 1 - k))
    ensures FieldNumber(buf, at, count) == num
    decreases count
  {
    if count > 0 {
      assert Bit(buf, at + count - 1) <==> BitAt(num, 0);
      forall k | at <= k < at + (count - 1)
        ensures Bit(buf, k) <==> BitAt(num / 2, at + (count - 1) - 1 - k)
      {
        assert Bit(buf, k) <==> BitAt(num, at + count - 1 - k);
      }
      BitsMakeNumber(buf, at, count - 1, num / 2);
    }
  }

  /** A constant, written to any field of its width, reads back as the big-endian number it was made of. */
  lemma {:induction false} ConstantReadsBack(before: seq<byte>, after: seq<byte>, at: nat, v: Value, num: nat)
    requires IsConstant(v, num) && num < Pow2(v.count) && at + v.count <= 8 * |before|
    requires Written(before, after, at, v)
    ensures FieldNumber(after, at, v.count) == num
  {
    forall k | at <= k < at + v.count
      ensures Bit(after, k) <==> BitAt(num, at + v.count - 1 - k)
    {
      assert Bit(after, k) <==> Bit(v.bytes, v.offset + (k - at));
    }
    BitsMakeNumber(after, at, v.count, num);
  }

  /** ZERO_SUFFIX: clear everything after the first `prefix` bits. */
  method ZeroSuffix(value: array<byte>, prefix: nat)
    requires prefix <= 8 * value.Length
    modifies value
    ensures forall k :: 0 <= k < 8 * value.Length ==>
              (Bit(value[..], k) <==> k < prefix && Bit(old(value[..]), k))
  {
    ghost var before := value[..];
    var n, rest := prefix / 8, prefix % 8;
    if rest > 0 {
      var mask := Char(Shl(255, 8 - rest));
      AndBound(value[n], mask);
      value[n] := And(value[n], mask);
      forall i | 0 <= i < 8
        ensures Msb(value[n], i) <==> i < rest && Msb(before[n], i)
      {
        PrefixMask(before[n], rest, i);
      }
      n := n + 1;
    }
    ghost var kept := value[..];
    for m := n to value.Length
      invariant forall b :: 0 <= b < n ==> value[b] == kept[b]
      invariant forall b :: n <= b < m ==> value[b] == 0
    {
      value[m] := 0;
    }
    ClearedTail(before, value[..], prefix);
  }

  lemma {:induction false} PrefixMask(b: byte, rest: nat, i: nat)
    requires 0 < rest < 8 && i < 8
    ensures Msb(Char(And(b, Char(Shl(255, 8 - rest)))), i) <==> i < rest && Msb(b, i)
  {
    BitChar(And(b, Char(Shl(255, 8 - rest))), 7 - i);
    BitAnd(b, Char(Shl(255, 8 - rest)), 7 - i);
    BitChar(Shl(255, 8 - rest), 7 - i);
    BitShl(255, 8 - rest, 7 - i);
    PowEight();
    if 7 - i >= 8 - rest { BitOnes(8, 7 - i - (8 - rest)); }
  }

  lemma {:induction false} ClearedTail(before: seq<byte>, after: seq<byte>, prefix: nat)
    requires |before| == |after| && prefix <= 8 * |before|
    requires forall b :: 0 <= b < prefix / 8 ==> after[b] == before[b]
    requires prefix % 8 > 0 ==>
               forall i :: 0 <= i < 8 ==> (Msb(after[prefix / 8], i) <==> i < prefix % 8 && Msb(before[prefix / 8], i))
    requires forall b :: (prefix + 7) / 8 <= b < |after| ==> after[b] == 0
    ensures forall k :: 0 <= k < 8 * |after| ==> (Bit(after, k) <==> k < prefix && Bit(before, k))
  {
    forall k | 0 <= k < 8 * |after|
      ensures Bit(after, k) <==> k < prefix && Bit(before, k)
    {
      if (prefix + 7) / 8 <= k / 8 { NoBits(7 - k % 8); }
    }
  }
}
