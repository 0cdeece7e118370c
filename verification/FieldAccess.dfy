/** Writing and comparing header fields of any bit width and offset (header.c). Bits of a buffer are numbered from
    the most significant bit of its first byte. */
module FieldAccess {
  import opened Bits

  /** Bit i of a byte, most significant first. */
  predicate Msb(b: byte, i: nat)
    requires i < 8
  {
    BitAt(b, 7 - i)
  }

  predicate Bit(buf: seq<byte>, k: nat)
    requires k < 8 * |buf|
  {
    Msb(buf[k / 8], k % 8)
  }

  // ----- one byte -----

  /** The mask the code builds for n bits at distance `shift` from the right. */
  function Mask(n: nat, shift: nat): (m: byte)
    requires n <= 8
  {
    var one := Char(Shl(1, n));
    Char(Shl(Char(one + 255), shift))
  }

  /** dst &= ~mask; dst |= src & mask */
  function Blend(dst: byte, src: byte, mask: byte): (r: byte) {
    AndBound(dst, 255 - mask);
    AndBound(src, mask);
    PowEight();
    OrBound(And(dst, 255 - mask), And(src, mask), 8);
    Or(And(dst, 255 - mask), And(src, mask))
  }

  lemma {:induction false} MaskOnes(n: nat)
    requires n <= 8
    ensures Char(Char(Shl(1, n)) + 255) == Pow2(n) - 1
  {
    ShlOne(n);
    PowEight();
    PowGrows(n, 8);
    if n < 8 {
      PowGrows(n, 7);
      assert Char(Pow2(n)) == Pow2(n);
    } else {
      assert Char(Pow2(n)) == 0;
    }
  }

  /** The mask selects exactly the bits [lo, hi) of a byte. */
  lemma {:induction false} MaskBits(lo: nat, hi: nat, i: nat)
    requires lo <= hi <= 8 && i < 8
    ensures Msb(Mask(hi - lo, 8 - hi), i) <==> lo <= i < hi
  {
    MaskBitAt(hi - lo, 8 - hi, 7 - i);
  }

  lemma {:induction false} MaskBitAt(n: nat, shift: nat, j: nat)
    requires n <= 8 && j < 8
    ensures BitAt(Mask(n, shift), j) <==> shift <= j < shift + n
  {
    MaskOnes(n);
    ShiftedOnes(n, shift, j);
  }

  lemma {:induction false} ShiftedOnes(n: nat, shift: nat, j: nat)
    requires j < 8
    ensures BitAt(Char(Shl(Pow2(n) - 1, shift)), j) <==> shift <= j < shift + n
  {
    BitChar(Shl(Pow2(n) - 1, shift), j);
    BitShl(Pow2(n) - 1, shift, j);
    if j >= shift { BitOnes(n, j - shift); }
  }

  lemma {:induction false} BlendBits(dst: byte, src: byte, mask: byte, i: nat)
    requires i < 8
    ensures Msb(Blend(dst, src, mask), i) <==> if Msb(mask, i) then Msb(src, i) else Msb(dst, i)
  {
    PowEight();
    BitOr(And(dst, 255 - mask), And(src, mask), 7 - i);
    BitAnd(dst, 255 - mask, 7 - i);
    BitAnd(src, mask, 7 - i);
    BitNot(mask, 8, 7 - i);
  }

  /** What one byte of a written field must look like: bits [lo, hi) from src, the others kept. */
  ghost predicate ByteWritten(before: byte, after: byte, src: byte, lo: int, hi: int) {
    forall i :: 0 <= i < 8 ==> (Msb(after, i) <==> if lo <= i < hi then Msb(src, i) else Msb(before, i))
  }

  lemma {:induction false} MaskedWrite(dst: byte, src: byte, lo: nat, hi: nat)
    requires lo <= hi <= 8
    ensures ByteWritten(dst, Blend(dst, src, Mask(hi - lo, 8 - hi)), src, lo, hi)
  {
    forall i | 0 <= i < 8
      ensures Msb(Blend(dst, src, Mask(hi - lo, 8 - hi)), i) <==> if lo <= i < hi then Msb(src, i) else Msb(dst, i)
    {
      MaskBits(lo, hi, i);
      BlendBits(dst, src, Mask(hi - lo, 8 - hi), i);
    }
  }

  /** Masked bytes are equal exactly when the selected bits are. */
  lemma {:induction false} MaskedCompare(x: byte, y: byte, lo: nat, hi: nat)
    requires lo <= hi <= 8
    ensures var m := Mask(hi - lo, 8 - hi);
            And(x, m) == And(y, m) <==> forall i :: lo <= i < hi ==> (Msb(x, i) <==> Msb(y, i))
  {
    var m := Mask(hi - lo, 8 - hi);
    if And(x, m) == And(y, m) {
      forall i | lo <= i < hi
        ensures Msb(x, i) <==> Msb(y, i)
      {
        MaskBits(lo, hi, i);
        BitAnd(x, m, 7 - i);
        BitAnd(y, m, 7 - i);
      }
    } else if forall i :: lo <= i < hi ==> (Msb(x, i) <==> Msb(y, i)) {
      MaskedAgree(x, y, lo, hi);
      assert false;
    }
  }

  lemma {:induction false} MaskedAgree(x: byte, y: byte, lo: nat, hi: nat)
    requires lo <= hi <= 8 && forall i :: lo <= i < hi ==> (Msb(x, i) <==> Msb(y, i))
    ensures var m := Mask(hi - lo, 8 - hi); And(x, m) == And(y, m)
  {
    var m := Mask(hi - lo, 8 - hi);
    forall j | 0 <= j < 8
      ensures BitAt(And(x, m), j) <==> BitAt(And(y, m), j)
    {
      MaskBits(lo, hi, 7 - j);
      BitAnd(x, m, j);
      BitAnd(y, m, j);
      assert lo <= 7 - j < hi ==> (Msb(x, 7 - j) <==> Msb(y, 7 - j));
    }
    PowEight();
    AndBound(x, m);
    AndBound(y, m);
    BitsDetermine(And(x, m), And(y, m), 8);
  }

  // ----- a whole field -----

  /** A field by bit offset and bit count; a value with the offset of its first bit. */
  datatype Field = Field(offset: nat, count: nat)
  datatype Value = Value(bytes: seq<byte>, offset: nat, count: nat)

  /** The bits [at, at + count) come from the value, all others are kept. */
  ghost predicate Written(before: seq<byte>, after: seq<byte>, at: nat, v: Value) {
    |after| == |before| && v.offset + v.count <= 8 * |v.bytes| &&
    forall k :: 0 <= k < 8 * |before| ==>
      (Bit(after, k) <==> if at <= k < at + v.count then Bit(v.bytes, v.offset + (k - at)) else Bit(before, k))
  }

  ghost predicate SameBits(buf: seq<byte>, at: nat, v: Value)
    requires at + v.count <= 8 * |buf| && v.offset + v.count <= 8 * |v.bytes|
  {
    forall k :: at <= k < at + v.count ==> (Bit(buf, k) <==> Bit(v.bytes, v.offset + (k - at)))
  }

  /** Both first bytes exist and field and value end inside their buffers. */
  predicate InBounds(len: nat, start: nat, f: Field, v: Value) {
    8 * start + f.offset + f.count <= 8 * len && start + f.offset / 8 < len &&
    v.offset + v.count <= 8 * |v.bytes| && v.offset / 8 < |v.bytes|
  }

  datatype Access = NoAccess | ByBytes | ByBits | Generic

  /** The selectors for writers and comparators make the same choice: whole bytes, bits within one byte, or a
      field that crosses a byte boundary. */
  function Select(f: Field, v: Value): (a: Access)
    ensures a == NoAccess <==> v.count != f.count || v.offset % 8 != f.offset % 8
    ensures a == ByBytes ==> exists first, n :: f.offset == 8 * first && f.count == 8 * n
    ensures a == ByBits && f.count > 0 ==> f.offset / 8 == (f.offset + f.count - 1) / 8
    ensures a == Generic ==> f.offset / 8 < (f.offset + f.count - 1) / 8
  {
    assert f.offset % 8 == 0 && f.count % 8 == 0 ==> f.offset == 8 * (f.offset / 8) && f.count == 8 * (f.count / 8);
    if v.count != f.count || v.offset % 8 != f.offset % 8 then NoAccess
    else if f.offset % 8 == 0 && f.count % 8 == 0 then ByBytes
    else if f.offset % 8 + f.count <= 8 then ByBits
    else Generic
  }

  /** Byte b of the buffer after a write of v at bit `at`, seen on its own. */
  ghost predicate ByteOk(before: seq<byte>, after: seq<byte>, at: nat, v: Value, b: nat)
    requires b < |before| == |after|
  {
    var lo, hi := at - 8 * b, at + v.count - 8 * b;
    if lo < 8 && 0 < hi && lo < hi then
      var s := b - at / 8 + v.offset / 8;
      0 <= s < |v.bytes| && ByteWritten(before[b], after[b], v.bytes[s], lo, hi)
    else ByteWritten(before[b], after[b], 0, 8, 8)
  }

  lemma {:induction false} BytesGiveBits(before: seq<byte>, after: seq<byte>, at: nat, v: Value)
    requires |before| == |after| && v.offset % 8 == at % 8 && v.offset + v.count <= 8 * |v.bytes|
    requires forall b :: 0 <= b < |before| ==> ByteOk(before, after, at, v, b)
    ensures Written(before, after, at, v)
  {
    forall k | 0 <= k < 8 * |before|
      ensures Bit(after, k) <==> if at <= k < at + v.count then Bit(v.bytes, v.offset + (k - at)) else Bit(before, k)
    {
      BitOfByte(before, after, at, v, k);
    }
  }

  lemma {:induction false} BitOfByte(before: seq<byte>, after: seq<byte>, at: nat, v: Value, k: nat)
    requires |before| == |after| && v.offset % 8 == at % 8 && v.offset + v.count <= 8 * |v.bytes|
    requires k < 8 * |before| && ByteOk(before, after, at, v, k / 8)
    ensures Bit(after, k) <==> if at <= k < at + v.count then Bit(v.bytes, v.offset + (k - at)) else Bit(before, k)
  {
    var b, i := k / 8, k % 8;
    if at <= k < at + v.count {
      var s := b - at / 8 + v.offset / 8;
      assert v.offset + (k - at) == 8 * s + i;
    }
  }

  /** The three kinds of bytes a write leaves: a first and a last one that may be masked, whole ones
      between them, and the rest of the buffer. */
  lemma {:induction false} WroteField(before: seq<byte>, after: seq<byte>, at: nat, d: nat, o: nat, v: Value,
                                      whole: nat)
    requires |before| == |after| && d < |before| && o < 8 && v.offset % 8 == o && at == 8 * d + o
    requires v.offset + v.count <= 8 * |v.bytes| && v.offset / 8 < |v.bytes| && at + v.count <= 8 * |before|
    requires if o + v.count <= 8 then whole == 0 else whole == (o + v.count - 8) / 8
    requires var s := v.offset / 8;
             ByteWritten(before[d], after[d], v.bytes[s], o, o + v.count) &&
             (forall b :: d < b <= d + whole ==> after[b] == v.bytes[s + (b - d)]) &&
             (var e := d + whole + 1;
              e < |before| ==>
                if o + v.count > 8 * (whole + 1)
                then ByteWritten(before[e], after[e], v.bytes[s + whole + 1], 0, o + v.count - 8 * (whole + 1))
                else after[e] == before[e])
    requires forall b :: 0 <= b < |before| && !(d <= b <= d + whole + 1) ==> after[b] == before[b]
    ensures Written(before, after, at, v)
  {
    assert forall b :: 0 <= b < |before| ==> ByteOk(before, after, at, v, b);
    BytesGiveBits(before, after, at, v);
  }

  // ----- writers -----

  method WriteBytes(buf: array<byte>, start: nat, f: Field, v: Value)
    requires InBounds(buf.Length, start, f, v) && Select(f, v) == ByBytes
    modifies buf
    ensures Written(old(buf[..]), buf[..], 8 * start + f.offset, v)
  {
    ghost var before := buf[..];
    CopyBytes(buf, start + f.offset / 8, v.bytes, v.offset / 8, v.count / 8);
    BytesGiveBits(before, buf[..], 8 * start + f.offset, v);
  }

  /** Set the bits [lo, hi) of one byte. */
  method WriteMasked(buf: array<byte>, d: nat, src: byte, lo: nat, hi: nat)
    requires d < buf.Length && lo <= hi <= 8
    modifies buf
    ensures ByteWritten(old(buf[d]), buf[d], src, lo, hi)
    ensures forall b :: 0 <= b < buf.Length && b != d ==> buf[b] == old(buf[b])
  {
    MaskedWrite(buf[d], src, lo, hi);
    buf[d] := Blend(buf[d], src, Mask(hi - lo, 8 - hi));
  }

  method WriteBits(buf: array<byte>, start: nat, f: Field, v: Value)
    requires InBounds(buf.Length, start, f, v) && Select(f, v) == ByBits
    modifies buf
    ensures Written(old(buf[..]), buf[..], 8 * start + f.offset, v)
  {
    ghost var before := buf[..];
    var d, s := start + f.offset / 8, v.offset / 8;
    var o := f.offset % 8;
    WriteMasked(buf, d, v.bytes[s], o, o + f.count);
    WroteField(before, buf[..], 8 * start + f.offset, d, o, v, 0);
  }

  method WriteGeneric(buf: array<byte>, start: nat, f: Field, v: Value)
    requires InBounds(buf.Length, start, f, v) && Select(f, v) == Generic
    modifies buf
    ensures Written(old(buf[..]), buf[..], 8 * start + f.offset, v)
  {
    ghost var before := buf[..];
    var d, s := start + f.offset / 8, v.offset / 8;
    var o := f.offset % 8;
    var first := if f.count < 8 - o then f.count else 8 - o;
    WriteMasked(buf, d, v.bytes[s], o, o + first);
    var bits := f.count - first;
    var len := bits / 8;
    CopyBytes(buf, d + 1, v.bytes, s + 1, len);
    bits := bits - 8 * len;
    if bits > 0 {
      WriteMasked(buf, d + 1 + len, v.bytes[s + 1 + len], 0, bits);
    }
    WroteField(before, buf[..], 8 * start + f.offset, d, o, v, len);
  }

  method CopyBytes(buf: array<byte>, d: nat, src: seq<byte>, s: nat, len: nat)
    requires d + len <= buf.Length && s + len <= |src|
    modifies buf
    ensures forall b :: d <= b < d + len ==> buf[b] == src[s + (b - d)]
    ensures forall b :: 0 <= b < buf.Length && !(d <= b < d + len) ==> buf[b] == old(buf[b])
  {
    for i := 0 to len
      invariant forall b :: d <= b < d + i ==> buf[b] == src[s + (b - d)]
      invariant forall b :: 0 <= b < buf.Length && !(d <= b < d + i) ==> buf[b] == old(buf[b])
    {
      buf[d + i] := src[s + i];
    }
  }

  /** Whichever writer is selected: exactly the field's bits become the value's bits. */
  method WriteField(buf: array<byte>, start: nat, f: Field, v: Value) returns (ok: bool)
    requires InBounds(buf.Length, start, f, v)
    modifies buf
    ensures ok <==> v.count == f.count && v.offset % 8 == f.offset % 8
    ensures if ok then Written(old(buf[..]), buf[..], 8 * start + f.offset, v) else buf[..] == old(buf[..])
  {
    ok := true;
    match Select(f, v) {
      case NoAccess => ok := false;
      case ByBytes => WriteBytes(buf, start, f, v);
      case ByBits => WriteBits(buf, start, f, v);
      case Generic => WriteGeneric(buf, start, f, v);
    }
  }

  // ----- comparators -----

  /** Byte b of the buffer agrees with the value as far as the field reaches into it. */
  ghost predicate ByteAgrees(buf: seq<byte>, at: nat, v: Value, b: nat)
    requires b < |buf|
  {
    var lo, hi := at - 8 * b, at + v.count - 8 * b;
    var s := b - at / 8 + v.offset / 8;
    lo < 8 && 0 < hi && lo < hi ==>
      0 <= s < |v.bytes| && forall i :: 0 <= i < 8 && lo <= i < hi ==> (Msb(buf[b], i) <==> Msb(v.bytes[s], i))
  }

  lemma {:induction false} BytesAgree(buf: seq<byte>, at: nat, v: Value)
    requires v.offset % 8 == at % 8 && v.offset + v.count <= 8 * |v.bytes| && at + v.count <= 8 * |buf|
    ensures SameBits(buf, at, v) <==> forall b :: 0 <= b < |buf| ==> ByteAgrees(buf, at, v, b)
  {
    if SameBits(buf, at, v) {
      forall b | 0 <= b < |buf|
        ensures ByteAgrees(buf, at, v, b)
      {
        ByteAgreesFrom(buf, at, v, b);
      }
    }
    if forall b :: 0 <= b < |buf| ==> ByteAgrees(buf, at, v, b) {
      forall k | at <= k < at + v.count
        ensures Bit(buf, k) <==> Bit(v.bytes, v.offset + (k - at))
      {
        assert ByteAgrees(buf, at, v, k / 8);
        var s := k / 8 - at / 8 + v.offset / 8;
        assert v.offset + (k - at) == 8 * s + k % 8;
      }
    }
  }

  lemma {:induction false} ByteAgreesFrom(buf: seq<byte>, at: nat, v: Value, b: nat)
    requires v.offset % 8 == at % 8 && v.offset + v.count <= 8 * |v.bytes| && at + v.count <= 8 * |buf|
    requires SameBits(buf, at, v) && b < |buf|
    ensures ByteAgrees(buf, at, v, b)
  {
    var lo, hi := at - 8 * b, at + v.count - 8 * b;
    var s := b - at / 8 + v.offset / 8;
    if lo < 8 && 0 < hi && lo < hi {
      forall i | 0 <= i < 8 && lo <= i < hi
        ensures 0 <= s < |v.bytes| && (Msb(buf[b], i) <==> Msb(v.bytes[s], i))
      {
        var k := 8 * b + i;
        assert v.offset + (k - at) == 8 * s + i;
        assert Bit(buf, k) <==> Bit(v.bytes, v.offset + (k - at));
      }
      var i := if lo < 0 then 0 else lo;
      assert 0 <= i < 8 && lo <= i < hi;
    }
  }

  /** Equal bits, told from a first and a last byte that may be masked and whole ones between. */
  lemma {:induction false} ComparedField(buf: seq<byte>, at: nat, d: nat, o: nat, v: Value, whole: nat)
    requires d < |buf| && o < 8 && v.offset % 8 == o && at == 8 * d + o
    requires v.offset + v.count <= 8 * |v.bytes| && v.offset / 8 < |v.bytes| && at + v.count <= 8 * |buf|
    requires if o + v.count <= 8 then whole == 0 else whole == (o + v.count - 8) / 8
    ensures var s := v.offset / 8;
            SameBits(buf, at, v) <==>
              (forall i :: 0 <= i < 8 && o <= i < o + v.count ==> (Msb(buf[d], i) <==> Msb(v.bytes[s], i))) &&
              (forall b :: d < b <= d + whole ==> ByteAgrees(buf, at, v, b)) &&
              (o + v.count > 8 * (whole + 1) ==> ByteAgrees(buf, at, v, d + whole + 1))
  {
    BytesAgree(buf, at, v);
    assert v.count > 0 ==>
      (ByteAgrees(buf, at, v, d) <==>
       forall i :: 0 <= i < 8 && o <= i < o + v.count ==> (Msb(buf[d], i) <==> Msb(v.bytes[v.offset / 8], i)));
    assert forall b :: 0 <= b < |buf| && !(d <= b <= d + whole + 1) ==> ByteAgrees(buf, at, v, b);
    if o + v.count <= 8 * (whole + 1) && d + whole + 1 < |buf| {
      assert ByteAgrees(buf, at, v, d + whole + 1);
    }
  }

  /** A byte lies wholly inside the field: it agrees exactly when it is the value's byte. */
  lemma {:induction false} WholeByte(buf: seq<byte>, at: nat, v: Value, b: nat)
    requires b < |buf| && at <= 8 * b && 8 * b + 8 <= at + v.count && v.offset % 8 == at % 8
    requires v.offset + v.count <= 8 * |v.bytes|
    ensures var s := b - at / 8 + v.offset / 8;
            0 <= s < |v.bytes| && (ByteAgrees(buf, at, v, b) <==> buf[b] == v.bytes[s])
  {
    var s := b - at / 8 + v.offset / 8;
    if forall i :: 0 <= i < 8 ==> (Msb(buf[b], i) <==> Msb(v.bytes[s], i)) {
      forall j | 0 <= j < 8
        ensures BitAt(buf[b], j) <==> BitAt(v.bytes[s], j)
      {
        assert Msb(buf[b], 7 - j) <==> Msb(v.bytes[s], 7 - j);
      }
      PowEight();
      BitsDetermine(buf[b], v.bytes[s], 8);
    }
  }

  method CompareBytes(buf: seq<byte>, start: nat, f: Field, v: Value) returns (same: bool)
    requires InBounds(|buf|, start, f, v) && Select(f, v) == ByBytes
    ensures same <==> SameBits(buf, 8 * start + f.offset, v)
  {
    ghost var at := 8 * start + f.offset;
    var d, s, len := start + f.offset / 8, v.offset / 8, v.count / 8;
    BytesAgree(buf, at, v);
    for i := 0 to len
      invariant forall b :: d <= b < d + i ==> ByteAgrees(buf, at, v, b)
    {
      WholeByte(buf, at, v, d + i);
      if buf[d + i] != v.bytes[s + i] { return false; }
    }
    return true;
  }

  /** Compare the bits [lo, hi) of two bytes. */
  method CompareMasked(x: byte, y: byte, lo: nat, hi: nat) returns (same: bool)
    requires lo <= hi <= 8
    ensures same <==> forall i :: lo <= i < hi ==> (Msb(x, i) <==> Msb(y, i))
  {
    var mask := Mask(hi - lo, 8 - hi);
    MaskedCompare(x, y, lo, hi);
    same := And(x, mask) == And(y, mask);
  }

  method CompareBits(buf: seq<byte>, start: nat, f: Field, v: Value) returns (same: bool)
    requires InBounds(|buf|, start, f, v) && Select(f, v) == ByBits
    ensures same <==> SameBits(buf, 8 * start + f.offset, v)
  {
    var d, s, o := start + f.offset / 8, v.offset / 8, f.offset % 8;
    same := CompareMasked(buf[d], v.bytes[s], o, o + f.count);
    ComparedField(buf, 8 * start + f.offset, d, o, v, 0);
  }

  method CompareWhole(buf: seq<byte>, ghost at: nat, v: Value, d: nat, s: nat, len: nat) returns (same: bool)
    requires at / 8 < d && d + len <= |buf| && s == d - at / 8 + v.offset / 8 && s + len <= |v.bytes|
    requires 8 * (d + len) <= at + v.count && v.offset % 8 == at % 8 && v.offset + v.count <= 8 * |v.bytes|
    ensures same <==> forall b :: d <= b < d + len ==> ByteAgrees(buf, at, v, b)
  {
    for i := 0 to len
      invariant forall b :: d <= b < d + i ==> ByteAgrees(buf, at, v, b)
    {
      WholeByte(buf, at, v, d + i);
      if buf[d + i] != v.bytes[s + i] { return false; }
    }
    return true;
  }

  method CompareGeneric(buf: seq<byte>, start: nat, f: Field, v: Value) returns (same: bool)
    requires InBounds(|buf|, start, f, v) && Select(f, v) == Generic
    ensures same <==> SameBits(buf, 8 * start + f.offset, v)
  {
    ghost var at := 8 * start + f.offset;
    var d, s, o := start + f.offset / 8, v.offset / 8, f.offset % 8;
    var first := if f.count < 8 - o then f.count else 8 - o;
    var bits := f.count - first;
    var len := bits / 8;
    ComparedField(buf, at, d, o, v, len);
    same := CompareMasked(buf[d], v.bytes[s], o, o + first);
    if !same { return; }
    same := CompareWhole(buf, at, v, d + 1, s + 1, len);
    if !same { return; }
    bits := bits - 8 * len;
    if bits > 0 {
      same := CompareMasked(buf[d + 1 + len], v.bytes[s + 1 + len], 0, bits);
    }
  }

  /** Whichever comparator is selected: true exactly when field and value have the same bits. */
  method CompareField(buf: seq<byte>, start: nat, f: Field, v: Value) returns (ok: bool, same: bool)
    requires InBounds(|buf|, start, f, v)
    ensures ok <==> v.count == f.count && v.offset % 8 == f.offset % 8
    ensures ok ==> (same <==> SameBits(buf, 8 * start + f.offset, v))
  {
    ok, same := true, false;
    match Select(f, v) {
      case NoAccess => ok := false;
      case ByBytes => same := CompareBytes(buf, start, f, v);
      case ByBits => same := CompareBits(buf, start, f, v);
      case Generic => same := CompareGeneric(buf, start, f, v);
    }
  }
}
