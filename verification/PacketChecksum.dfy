/** Checksums of packet headers (checksum.c) and the incremental update when a TTL is reduced
    (action.c). The packet buffer begins at a 4-byte boundary. */
module PacketChecksum {
  import opened Bits
  import opened InetChecksum
  import opened Protocols
  import PacketLayout

  type Header = PacketLayout.Header
  datatype Params = Params(proto: Proto, hdrIdx: nat, ipIdx: nat, ipv4: bool)

  function FieldOffset(p: Proto): (o: nat)
    ensures o % 2 == 0
  {
    match p case IPv4 => 10 case Tcp => 16 case Udp => 6 case _ => 2
  }

  function ProtocolNumber(p: Proto): byte {
    match p case Icmpv4 => 1 case Icmpv6 => 58 case Tcp => 6 case Udp => 17 case _ => 0
  }

  /** One string handed to csum_partial, with the address it lies at modulo 4. */
  datatype Chunk = Chunk(align: nat, bytes: seq<byte>)

  predicate Aligned(cs: seq<Chunk>) { forall i :: 0 <= i < |cs| ==> cs[i].align < 4 }

  function SumChunks(cs: seq<Chunk>, acc: Acc): (r: Acc)
    requires Aligned(cs) && acc.sum < WORD32
    ensures r.sum < WORD32
    decreases |cs|
  {
    if cs == [] then acc
    else
      var r := CsumPartial(cs[0].align, cs[0].bytes, acc.sum);
      SumChunks(cs[1..], Acc(r.sum, acc.wraps + r.wraps))
  }

  function Total(cs: seq<Chunk>): nat {
    if cs == [] then 0 else EvenSum(cs[0].bytes) + Total(cs[1..])
  }

  lemma {:induction false} ChunksAdd(cs: seq<Chunk>, acc: Acc)
    requires Aligned(cs) && acc.sum < WORD32
    ensures Added(acc, Total(cs), SumChunks(cs, acc))
    ensures SumChunks(cs, acc).wraps <= acc.wraps + 5 * |cs|
    decreases |cs|
  {
    if cs == [] {
      NothingAdded(acc);
    } else {
      var x, r := EvenSum(cs[0].bytes), CsumPartial(cs[0].align, cs[0].bytes, acc.sum);
      PartialIsWordSum(cs[0].align, cs[0].bytes, acc.sum);
      FewWraps(cs[0].align, cs[0].bytes, acc.sum);
      var next := Acc(r.sum, acc.wraps + r.wraps);
      AddedLater(acc, x, r);
      ChunksAdd(cs[1..], next);
      AddedTrans(acc, x, next, Total(cs[1..]), SumChunks(cs, acc));
    }
  }

  lemma {:induction false} AddedLater(acc: Acc, x: nat, r: Acc)
    requires Added(Acc(acc.sum, 0), x, r)
    ensures Added(acc, x, Acc(r.sum, acc.wraps + r.wraps))
  {
    var k :| r.sum + r.wraps == acc.sum + 0 + x + Times(k);
    assert r.sum + (acc.wraps + r.wraps) == acc.sum + acc.wraps + x + Times(k);
  }

  /** A checksum reads as correct exactly when the sum is a nonzero multiple of 65535. */
  lemma {:induction false} ZeroFold(sum: nat)
    requires sum < WORD32
    ensures CsumFold(sum) == 0 <==> sum > 0 && Congruent(sum, 0)
  {
    FoldIsOnesComplement(sum);
    var k :| sum == Fold(sum) + Times(k);
    if Fold(sum) == 65535 {
      assert sum == 0 + Times(k + 1);
    }
    if sum > 0 && Congruent(sum, 0) {
      var j :| sum == 0 + Times(j);
      assert Fold(sum) == 0 + Times(j - k);
    }
  }

  /** The checksum arithmetic: a sum b was computed over strings of total x; over strings of that total
      plus b's complement the sum is a. Then a verifies exactly when as many carries were lost both
      times and a is not zero; in particular when none was lost. */
  lemma {:induction false} ComplementVerifies(b: Acc, a: Acc, x: nat)
    requires b.sum < WORD32 && a.sum < WORD32 && b.wraps < MOD && a.wraps < MOD
    requires Added(Acc(0, 0), x, b) && Added(Acc(0, 0), x + 65535 - Fold(b.sum), a)
    ensures CsumFold(a.sum) == 0 <==> a.sum > 0 && b.wraps == a.wraps
    ensures b.wraps == 0 == a.wraps ==> CsumFold(a.sum) == 0
  {
    FoldIsOnesComplement(b.sum);
    ZeroFold(a.sum);
    var k0 :| b.sum == Fold(b.sum) + Times(k0);
    var k1 :| b.sum + b.wraps == 0 + 0 + x + Times(k1);
    var k2 :| a.sum + a.wraps == 0 + 0 + (x + 65535 - Fold(b.sum)) + Times(k2);
    var k := k2 + 1 + k0 - k1;
    assert a.sum == b.wraps - a.wraps + Times(k);
    if Congruent(a.sum, 0) {
      var j :| a.sum == 0 + Times(j);
      assert b.wraps - a.wraps == Times(j - k);
    }
    if b.wraps == a.wraps {
      assert a.sum == 0 + Times(k);
    }
  }

  // ----- which bytes of a packet are summed -----

  /** Every byte the code touches lies in the buffer. */
  predicate Fits(buf: seq<byte>, hs: seq<Header>, cp: Params) {
    HasChecksum(cp.proto) && |hs| <= PacketLayout.MAX_HEADERS && cp.hdrIdx < |hs| &&
    (forall i :: 0 <= i < |hs| ==> hs[i].start + hs[i].len <= |buf|) &&
    Field(hs, cp) + 2 <= |buf| &&
    if cp.proto == IPv4 then hs[cp.hdrIdx].start + IpLength(buf[hs[cp.hdrIdx].start]) <= |buf|
    else cp.ipIdx < |hs| && hs[cp.ipIdx].start + IpReads(cp) <= |buf|
  }

  /** How far into the IP header a checksum above it looks: length fields and addresses, for ICMPv4 no addresses. */
  function IpReads(cp: Params): nat {
    if cp.proto == Icmpv4 then (if cp.ipv4 then 4 else 6) else if cp.ipv4 then 20 else 40
  }

  /** Where the checksum field begins. */
  function Field(hs: seq<Header>, cp: Params): nat
    requires cp.hdrIdx < |hs|
  {
    hs[cp.hdrIdx].start + FieldOffset(cp.proto)
  }

  /** The length of what follows the IP header, on 16 bits, less the header's own length once for every
      header between the two, as the code has it. */
  function PayloadLength(buf: seq<byte>, hs: seq<Header>, cp: Params): (len: nat)
    requires Fits(buf, hs, cp) && cp.proto != IPv4
    ensures len < 65536
  {
    var ip := hs[cp.ipIdx].start;
    var fromIp := if cp.ipv4 then Word16(true, buf[ip + 2], buf[ip + 3]) - IpLength(buf[ip])
                  else Word16(true, buf[ip + 4], buf[ip + 5]);
    var between := if cp.hdrIdx > cp.ipIdx then cp.hdrIdx - cp.ipIdx - 1 else 0;
    (fromIp - between * hs[cp.hdrIdx].len) % 65536
  }

  /** The header length in the first byte of an IPv4 header. */
  function IpLength(b: byte): (n: nat)
    ensures n <= 60
  {
    b % 16 * 4
  }

  function Min(a: nat, b: nat): nat { if a < b then a else b }

  function BodyChunks(buf: seq<byte>, hs: seq<Header>, i: nat, len: nat): (cs: seq<Chunk>)
    requires forall i :: 0 <= i < |hs| ==> hs[i].start + hs[i].len <= |buf|
    ensures Aligned(cs) && |cs| == if i < |hs| then |hs| - i else 0
    decreases |hs| - i
  {
    if i >= |hs| then []
    else
      var n := Min(len, hs[i].len);
      [Chunk(hs[i].start % 4, buf[hs[i].start..hs[i].start + n])] + BodyChunks(buf, hs, i + 1, len - n)
  }

  /** The pseudo header: addresses from the IP header, then protocol and length built on the stack. */
  function PseudoChunks(buf: seq<byte>, hs: seq<Header>, cp: Params, stack: nat): (cs: seq<Chunk>)
    requires Fits(buf, hs, cp) && cp.proto != IPv4 && stack < 4
    ensures Aligned(cs) && |cs| <= 2
  {
    var ip := hs[cp.ipIdx].start;
    var len := PayloadLength(buf, hs, cp);
    if cp.proto == Icmpv4 then []
    else if cp.ipv4 then
      [Chunk((ip + 12) % 4, buf[ip + 12..ip + 20]), Chunk(stack, [0, ProtocolNumber(cp.proto), len / 256, len % 256])]
    else
      [Chunk((ip + 8) % 4, buf[ip + 8..ip + 40]),
       Chunk(stack, [0, 0, len / 256, len % 256, 0, 0, 0, ProtocolNumber(cp.proto)])]
  }

  function Chunks(buf: seq<byte>, hs: seq<Header>, cp: Params, stack: nat): (cs: seq<Chunk>)
    requires Fits(buf, hs, cp) && stack < 4
    ensures Aligned(cs) && |cs| <= PacketLayout.MAX_HEADERS + 2
  {
    if cp.proto == IPv4 then
      var ip := hs[cp.hdrIdx].start;
      [Chunk(ip % 4, buf[ip..ip + IpLength(buf[ip])])]
    else
      PseudoChunks(buf, hs, cp, stack) + BodyChunks(buf, hs, cp.hdrIdx, PayloadLength(buf, hs, cp))
  }

  function Summed(buf: seq<byte>, hs: seq<Header>, cp: Params, stack: nat): (r: Acc)
    requires Fits(buf, hs, cp) && stack < 4
    ensures r.sum < WORD32
  {
    SumChunks(Chunks(buf, hs, cp, stack), Acc(0, 0))
  }

  function PutField(buf: seq<byte>, f: nat, hi: byte, lo: byte): (r: seq<byte>)
    requires f + 2 <= |buf|
    ensures |r| == |buf|
  {
    buf[f := hi][f + 1 := lo]
  }

  /** The field is cleared. */
  function Cleared(buf: seq<byte>, hs: seq<Header>, cp: Params): (r: seq<byte>)
    requires Fits(buf, hs, cp)
    ensures |r| == |buf| && Fits(r, hs, cp)
  {
    PutField(buf, Field(hs, cp), 0, 0)
  }

  /** checksum_compute: clear the field, sum, write the complement big-endian. */
  function Computed(buf: seq<byte>, hs: seq<Header>, cp: Params, stack: nat): (r: seq<byte>)
    requires Fits(buf, hs, cp) && stack < 4
    ensures |r| == |buf| && Fits(r, hs, cp)
  {
    Filled(Cleared(buf, hs, cp), hs, cp, stack)
  }

  function Filled(zero: seq<byte>, hs: seq<Header>, cp: Params, stack: nat): (r: seq<byte>)
    requires Fits(zero, hs, cp) && stack < 4
    ensures |r| == |zero| && Fits(r, hs, cp)
  {
    var c := CsumFold(Summed(zero, hs, cp, stack).sum);
    PutField(zero, Field(hs, cp), c / 256, c % 256)
  }

  predicate Verifies(buf: seq<byte>, hs: seq<Header>, cp: Params, stack: nat)
    requires Fits(buf, hs, cp) && stack < 4
  {
    CsumFold(Summed(buf, hs, cp, stack).sum) == 0
  }

  // ----- round trip -----

  /** The field lies inside the summed length of its header and apart from every other summed byte. */
  predicate FieldIsSummed(buf: seq<byte>, hs: seq<Header>, cp: Params)
    requires Fits(buf, hs, cp)
  {
    var f := Field(hs, cp);
    if cp.proto == IPv4 then IpLength(buf[hs[cp.hdrIdx].start]) >= 12
    else
      FieldOffset(cp.proto) + 2 <= Min(PayloadLength(buf, hs, cp), hs[cp.hdrIdx].len) &&
      Apart(f, hs[cp.ipIdx].start, IpReads(cp)) &&
      forall i :: cp.hdrIdx < i < |hs| ==> Apart(f, hs[i].start, hs[i].len)
  }

  predicate Apart(f: nat, start: nat, len: nat) { len == 0 || f + 2 <= start || start + len <= f }

  predicate SameOutside(a: seq<byte>, b: seq<byte>, f: nat) {
    |a| == |b| && forall k :: 0 <= k < |a| && k != f && k != f + 1 ==> a[k] == b[k]
  }

  lemma {:induction false} SliceSame(a: seq<byte>, b: seq<byte>, f: nat, start: nat, len: nat)
    requires SameOutside(a, b, f) && start + len <= |a| && Apart(f, start, len)
    ensures a[start..start + len] == b[start..start + len]
  {
  }

  lemma {:induction false} BodySame(a: seq<byte>, b: seq<byte>, hs: seq<Header>, f: nat, i: nat, len: nat)
    requires SameOutside(a, b, f)
    requires forall j :: 0 <= j < |hs| ==> hs[j].start + hs[j].len <= |a|
    requires forall j :: i <= j < |hs| ==> Apart(f, hs[j].start, hs[j].len)
    ensures BodyChunks(a, hs, i, len) == BodyChunks(b, hs, i, len)
    decreases |hs| - i
  {
    if i < |hs| {
      BodySame(a, b, hs, f, i + 1, len - Min(len, hs[i].len));
      BodyStep(a, b, hs, f, i, len);
    }
  }

  lemma {:induction false} BodyStep(a: seq<byte>, b: seq<byte>, hs: seq<Header>, f: nat, i: nat, len: nat)
    requires SameOutside(a, b, f) && i < |hs| && Apart(f, hs[i].start, hs[i].len)
    requires forall j :: 0 <= j < |hs| ==> hs[j].start + hs[j].len <= |a|
    requires var rest := len - Min(len, hs[i].len); BodyChunks(a, hs, i + 1, rest) == BodyChunks(b, hs, i + 1, rest)
    ensures BodyChunks(a, hs, i, len) == BodyChunks(b, hs, i, len)
  {
    SliceSame(a, b, f, hs[i].start, Min(len, hs[i].len));
  }

  /** Replacing the word at an even offset changes the word sum by the difference of the words. */
  lemma {:induction false} EvenSumPut(d: seq<byte>, o: nat, hi: byte, lo: byte)
    requires o % 2 == 0 && o + 2 <= |d|
    ensures EvenSum(PutField(d, o, hi, lo)) == EvenSum(d) - Word16(false, d[o], d[o + 1]) + Word16(false, hi, lo)
  {
    PutFrom(d, o, hi, lo, 0);
  }

  lemma {:induction false} PutFrom(d: seq<byte>, o: nat, hi: byte, lo: byte, i: nat)
    requires o % 2 == 0 && o + 2 <= |d| && i % 2 == 0 && i <= o
    ensures WordSum(false, PutField(d, o, hi, lo), i)
         == WordSum(false, d, i) - Word16(false, d[o], d[o + 1]) + Word16(false, hi, lo)
    decreases o - i
  {
    var e := PutField(d, o, hi, lo);
    SplitTwo(false, d, i);
    SplitTwo(false, e, i);
    if i < o { PutFrom(d, o, hi, lo, i + 2); } else { SameFrom(d, e, false, i + 2); }
  }

  lemma {:induction false} SameFrom(d: seq<byte>, e: seq<byte>, odd: bool, i: nat)
    requires |d| == |e| && forall k :: i <= k < |d| ==> d[k] == e[k]
    ensures WordSum(odd, d, i) == WordSum(odd, e, i)
    decreases |d| - i
  {
    if i < |d| { SameFrom(d, e, !odd, i + 1); }
  }

  lemma {:induction false} TotalConcat(a: seq<Chunk>, b: seq<Chunk>)
    ensures Total(a + b) == Total(a) + Total(b)
  {
    if a == [] {
      assert a + b == b;
    } else {
      TotalConcat(a[1..], b);
      assert (a + b)[1..] == a[1..] + b;
    }
  }

  lemma {:induction false} PutElsewhere(a: seq<byte>, f: nat, hi: byte, lo: byte)
    requires f + 2 <= |a|
    ensures SameOutside(a, PutField(a, f, hi, lo), f)
  {
  }

  lemma {:induction false} BodyShows(a: seq<byte>, hs: seq<Header>, i: nat, len: nat, o: nat, hi: byte, lo: byte)
    requires i < |hs| && (forall j :: 0 <= j < |hs| ==> hs[j].start + hs[j].len <= |a|)
    requires o % 2 == 0 && o + 2 <= Min(len, hs[i].len) && a[hs[i].start + o] == 0 == a[hs[i].start + o + 1]
    requires forall j :: i < j < |hs| ==> Apart(hs[i].start + o, hs[j].start, hs[j].len)
    ensures Total(BodyChunks(PutField(a, hs[i].start + o, hi, lo), hs, i, len))
         == Total(BodyChunks(a, hs, i, len)) + Word16(false, hi, lo)
  {
    var f, n := hs[i].start + o, Min(len, hs[i].len);
    var b := PutField(a, f, hi, lo);
    PutElsewhere(a, f, hi, lo);
    ChunkPut(a, hs[i].start, n, o, hi, lo);
    BodySame(a, b, hs, f, i + 1, len - n);
    BodyTotal(a, hs, i, len);
    BodyTotal(b, hs, i, len);
  }

  lemma {:induction false} BodyTotal(a: seq<byte>, hs: seq<Header>, i: nat, len: nat)
    requires i < |hs| && (forall j :: 0 <= j < |hs| ==> hs[j].start + hs[j].len <= |a|)
    ensures var n := Min(len, hs[i].len);
            Total(BodyChunks(a, hs, i, len)) ==
              EvenSum(a[hs[i].start..hs[i].start + n]) + Total(BodyChunks(a, hs, i + 1, len - n))
  {
    var n := Min(len, hs[i].len);
    TotalCons(Chunk(hs[i].start % 4, a[hs[i].start..hs[i].start + n]), BodyChunks(a, hs, i + 1, len - n));
  }

  lemma {:induction false} TotalCons(c: Chunk, rest: seq<Chunk>)
    ensures Total([c] + rest) == EvenSum(c.bytes) + Total(rest)
  {
    assert ([c] + rest)[1..] == rest;
  }

  /** The summed strings see the field's two bytes once, as one little-endian word. */
  lemma {:induction false} FieldShows(a: seq<byte>, hs: seq<Header>, cp: Params, hi: byte, lo: byte, s1: nat, s2: nat)
    requires Fits(a, hs, cp) && FieldIsSummed(a, hs, cp) && s1 < 4 && s2 < 4
    requires a[Field(hs, cp)] == 0 == a[Field(hs, cp) + 1]
    ensures var b := PutField(a, Field(hs, cp), hi, lo);
            Total(Chunks(b, hs, cp, s2)) == Total(Chunks(a, hs, cp, s1)) + Word16(false, hi, lo)
  {
    if cp.proto == IPv4 {
      var start := hs[cp.hdrIdx].start;
      ChunkPut(a, start, IpLength(a[start]), 10, hi, lo);
    } else {
      FieldShowsAbove(a, hs, cp, hi, lo, s1, s2);
    }
  }

  lemma {:induction false} FieldShowsAbove(a: seq<byte>, hs: seq<Header>, cp: Params, hi: byte, lo: byte, s1: nat,
                                           s2: nat)
    requires Fits(a, hs, cp) && FieldIsSummed(a, hs, cp) && s1 < 4 && s2 < 4 && cp.proto != IPv4
    requires a[Field(hs, cp)] == 0 == a[Field(hs, cp) + 1]
    ensures var b := PutField(a, Field(hs, cp), hi, lo);
            Total(Chunks(b, hs, cp, s2)) == Total(Chunks(a, hs, cp, s1)) + Word16(false, hi, lo)
  {
    var b := PutField(a, Field(hs, cp), hi, lo);
    var len := PayloadLength(a, hs, cp);
    PseudoSame(a, b, hs, cp, s1, s2);
    BodyShows(a, hs, cp.hdrIdx, len, FieldOffset(cp.proto), hi, lo);
    ChunksTotal(a, hs, cp, s1);
    ChunksTotal(b, hs, cp, s2);
  }

  lemma {:induction false} ChunksTotal(buf: seq<byte>, hs: seq<Header>, cp: Params, stack: nat)
    requires Fits(buf, hs, cp) && stack < 4 && cp.proto != IPv4
    ensures Total(Chunks(buf, hs, cp, stack)) == Total(PseudoChunks(buf, hs, cp, stack)) +
                                                 Total(BodyChunks(buf, hs, cp.hdrIdx, PayloadLength(buf, hs, cp)))
  {
    TotalConcat(PseudoChunks(buf, hs, cp, stack), BodyChunks(buf, hs, cp.hdrIdx, PayloadLength(buf, hs, cp)));
  }

  lemma {:induction false} ChunkPut(a: seq<byte>, start: nat, n: nat, o: nat, hi: byte, lo: byte)
    requires start + n <= |a| && o % 2 == 0 && o + 2 <= n && a[start + o] == 0 == a[start + o + 1]
    ensures EvenSum(PutField(a, start + o, hi, lo)[start..start + n]) ==
            EvenSum(a[start..start + n]) + Word16(false, hi, lo)
  {
    var d: seq<byte> := a[start..start + n];
    EvenSumPut(d, o, hi, lo);
    assert PutField(a, start + o, hi, lo)[start..start + n] == PutField(d, o, hi, lo);
  }

  lemma {:induction false} SameLength(a: seq<byte>, b: seq<byte>, hs: seq<Header>, cp: Params)
    requires Fits(a, hs, cp) && cp.proto != IPv4
    requires SameOutside(a, b, Field(hs, cp)) && Apart(Field(hs, cp), hs[cp.ipIdx].start, IpReads(cp))
    ensures PayloadLength(a, hs, cp) == PayloadLength(b, hs, cp)
  {
    var ip := hs[cp.ipIdx].start;
    assert a[ip] == b[ip] && a[ip + 2] == b[ip + 2] && a[ip + 3] == b[ip + 3];
    if !cp.ipv4 { assert a[ip + 4] == b[ip + 4] && a[ip + 5] == b[ip + 5]; }
  }

  lemma {:induction false} PseudoSame(a: seq<byte>, b: seq<byte>, hs: seq<Header>, cp: Params, s1: nat, s2: nat)
    requires Fits(a, hs, cp) && cp.proto != IPv4 && s1 < 4 && s2 < 4
    requires SameOutside(a, b, Field(hs, cp)) && Apart(Field(hs, cp), hs[cp.ipIdx].start, IpReads(cp))
    ensures PayloadLength(a, hs, cp) == PayloadLength(b, hs, cp)
    ensures Total(PseudoChunks(a, hs, cp, s1)) == Total(PseudoChunks(b, hs, cp, s2))
  {
    var ip := hs[cp.ipIdx].start;
    SameLength(a, b, hs, cp);
    if cp.proto != Icmpv4 {
      if cp.ipv4 { SliceSame(a, b, Field(hs, cp), ip + 12, 8); } else { SliceSame(a, b, Field(hs, cp), ip + 8, 32); }
      var ca, cb := PseudoChunks(a, hs, cp, s1), PseudoChunks(b, hs, cp, s2);
      assert ca[0].bytes == cb[0].bytes && ca[1].bytes == cb[1].bytes;
      TotalOfTwo(ca);
      TotalOfTwo(cb);
    }
  }

  lemma {:induction false} TotalOfTwo(cs: seq<Chunk>)
    requires |cs| == 2
    ensures Total(cs) == EvenSum(cs[0].bytes) + EvenSum(cs[1].bytes)
  {
    assert cs == [cs[0]] + ([cs[1]] + []);
    TotalCons(cs[1], []);
    TotalCons(cs[0], [cs[1]] + []);
  }

  lemma {:induction false} FoldBytes(sum: nat)
    requires sum < WORD32
    ensures var c := CsumFold(sum); Word16(false, c / 256, c % 256) == 65535 - Fold(sum)
  {
    var c := 65535 - Fold(sum);
    SwapBytes(c % 256, c / 256);
  }

  lemma {:induction false} SwapBytes(hi: nat, lo: nat)
    requires hi < 256 && lo < 256
    ensures (hi * 256 + lo) / 256 == hi && (hi * 256 + lo) % 256 == lo
  {
  }

  /** checksum_verify after checksum_compute, for every protocol, header split and placement of the
      stack buffer, where the sum covers the field: it holds exactly when both sums lost equally many
      carries and the second is not zero, and so always when neither lost one. */
  lemma {:induction false} ComputeThenVerify(buf: seq<byte>, hs: seq<Header>, cp: Params, s1: nat, s2: nat)
    requires Fits(buf, hs, cp) && s1 < 4 && s2 < 4
    requires FieldIsSummed(Cleared(buf, hs, cp), hs, cp)
    ensures RoundTrip(Cleared(buf, hs, cp), Computed(buf, hs, cp, s1), hs, cp, s1, s2)
  {
    FilledVerifies(Cleared(buf, hs, cp), hs, cp, s1, s2);
  }

  lemma {:induction false} FilledVerifies(zero: seq<byte>, hs: seq<Header>, cp: Params, s1: nat, s2: nat)
    requires Fits(zero, hs, cp) && FieldIsSummed(zero, hs, cp) && s1 < 4 && s2 < 4
    requires zero[Field(hs, cp)] == 0 == zero[Field(hs, cp) + 1]
    ensures RoundTrip(zero, Filled(zero, hs, cp, s1), hs, cp, s1, s2)
  {
    var out := Filled(zero, hs, cp, s1);
    var cs1, cs2 := Chunks(zero, hs, cp, s1), Chunks(out, hs, cp, s2);
    FieldComplements(zero, hs, cp, Summed(zero, hs, cp, s1).sum, s1, s2);
    ChunksAdd(cs1, Acc(0, 0));
    ChunksAdd(cs2, Acc(0, 0));
    ComplementVerifies(SumChunks(cs1, Acc(0, 0)), SumChunks(cs2, Acc(0, 0)), Total(cs1));
  }

  lemma {:induction false} FieldComplements(zero: seq<byte>, hs: seq<Header>, cp: Params, sum: nat, s1: nat, s2: nat)
    requires Fits(zero, hs, cp) && FieldIsSummed(zero, hs, cp) && s1 < 4 && s2 < 4 && sum < WORD32
    requires zero[Field(hs, cp)] == 0 == zero[Field(hs, cp) + 1]
    ensures var out := PutField(zero, Field(hs, cp), CsumFold(sum) / 256, CsumFold(sum) % 256);
            Total(Chunks(out, hs, cp, s2)) == Total(Chunks(zero, hs, cp, s1)) + 65535 - Fold(sum)
  {
    FieldShows(zero, hs, cp, CsumFold(sum) / 256, CsumFold(sum) % 256, s1, s2);
    FoldBytes(sum);
  }

  predicate RoundTrip(zero: seq<byte>, out: seq<byte>, hs: seq<Header>, cp: Params, s1: nat, s2: nat)
    requires Fits(zero, hs, cp) && Fits(out, hs, cp) && s1 < 4 && s2 < 4
  {
    var b, a := Summed(zero, hs, cp, s1), Summed(out, hs, cp, s2);
    (Verifies(out, hs, cp, s2) <==> a.sum > 0 && b.wraps == a.wraps) &&
    (b.wraps == 0 == a.wraps ==> Verifies(out, hs, cp, s2))
  }

  // ----- told from the data -----

  /** No chunk loses a carry, each added to what those before it gave. */
  predicate AllKeep(cs: seq<Chunk>, sum: nat)
    requires Aligned(cs) && sum < WORD32
    decreases |cs|
  {
    cs == [] ||
    (KeepsCarries(cs[0].align, cs[0].bytes, sum) &&
     AllKeep(cs[1..], CsumPartial(cs[0].align, cs[0].bytes, sum).sum))
  }

  lemma {:induction false} WrapsShow(cs: seq<Chunk>, acc: Acc)
    requires Aligned(cs) && acc.sum < WORD32
    ensures SumChunks(cs, acc).wraps >= acc.wraps
    ensures SumChunks(cs, acc).wraps == acc.wraps <==> AllKeep(cs, acc.sum)
    decreases |cs|
  {
    if cs != [] {
      var r := CsumPartial(cs[0].align, cs[0].bytes, acc.sum);
      LostCarriesShow(cs[0].align, cs[0].bytes, acc.sum);
      WrapsShow(cs[1..], Acc(r.sum, acc.wraps + r.wraps));
    }
  }

  predicate Keeps(buf: seq<byte>, hs: seq<Header>, cp: Params, stack: nat)
    requires Fits(buf, hs, cp) && stack < 4
  {
    AllKeep(Chunks(buf, hs, cp, stack), 0)
  }

  lemma {:induction false} KeepsShows(buf: seq<byte>, hs: seq<Header>, cp: Params, stack: nat)
    requires Fits(buf, hs, cp) && stack < 4
    ensures Summed(buf, hs, cp, stack).wraps == 0 <==> Keeps(buf, hs, cp, stack)
  {
    WrapsShow(Chunks(buf, hs, cp, stack), Acc(0, 0));
  }

  /** How many bytes from the header on the sum covers. */
  function SummedLength(buf: seq<byte>, hs: seq<Header>, cp: Params): nat
    requires Fits(buf, hs, cp)
  {
    if cp.proto == IPv4 then IpLength(buf[hs[cp.hdrIdx].start]) else PayloadLength(buf, hs, cp)
  }

  /** The checksummed header is whole; so is the IP header below it. */
  predicate WholeHeaders(hs: seq<Header>, cp: Params) {
    HasChecksum(cp.proto) && cp.hdrIdx < |hs| && hs[cp.hdrIdx].len >= ByteLength(cp.proto) &&
    (cp.proto != IPv4 ==> cp.ipIdx < |hs| && cp.ipIdx != cp.hdrIdx &&
                          hs[cp.ipIdx].len >= ByteLength(if cp.ipv4 then IPv4 else IPv6))
  }

  /** In a packet with its headers in place the sum covers the field exactly when it reaches that far. */
  lemma {:induction false} FieldIsSummedExactly(p: PacketLayout.Pkt, cp: Params)
    requires PacketLayout.WellPlaced(p.layout) && WholeHeaders(p.layout.headers, cp)
    requires Fits(p.buf, p.layout.headers, cp)
    ensures var hs := p.layout.headers;
            FieldIsSummed(Cleared(p.buf, hs, cp), hs, cp) <==>
            FieldOffset(cp.proto) + 2 <= SummedLength(p.buf, hs, cp)
  {
    var hs, f := p.layout.headers, Field(p.layout.headers, cp);
    PutElsewhere(p.buf, f, 0, 0);
    if cp.proto != IPv4 {
      FieldApart(p, cp, cp.ipIdx);
      SameLength(p.buf, Cleared(p.buf, hs, cp), hs, cp);
      forall i | cp.hdrIdx < i < |hs|
        ensures Apart(f, hs[i].start, hs[i].len)
      {
        FieldApart(p, cp, i);
      }
    }
  }

  lemma {:induction false} PlacedFits(p: PacketLayout.Pkt, cp: Params)
    requires PacketLayout.WellPlaced(p.layout) && |p.buf| == PacketLayout.BUF_LEN
    requires WholeHeaders(p.layout.headers, cp) && cp.proto != IPv4
    ensures Fits(p.buf, p.layout.headers, cp)
  {
    var hs := p.layout.headers;
    forall i | 0 <= i < |hs|
      ensures hs[i].start + hs[i].len <= |p.buf|
    {
      assert PacketLayout.Inside(p.layout, hs[i]);
    }
  }

  lemma {:induction false} LengthBehindIPv4(buf: seq<byte>, hs: seq<Header>, cp: Params)
    requires Fits(buf, hs, cp) && cp.proto != IPv4 && cp.ipv4 && cp.hdrIdx == cp.ipIdx + 1
    requires var ip := hs[cp.ipIdx].start; buf[ip] == 0x45 && Word16(true, buf[ip + 2], buf[ip + 3]) >= 20
    ensures var ip := hs[cp.ipIdx].start; PayloadLength(buf, hs, cp) == Word16(true, buf[ip + 2], buf[ip + 3]) - 20
  {
    assert IpLength(buf[hs[cp.ipIdx].start]) == 20;
  }

  /** So it does in a received packet with UDP, TCP or ICMP right behind an IPv4 header without options. */
  lemma {:induction false} BehindIPv4(p: PacketLayout.Pkt, cp: Params)
    requires PacketLayout.WellPlaced(p.layout) && |p.buf| == PacketLayout.BUF_LEN
    requires WholeHeaders(p.layout.headers, cp) && Fits(p.buf, p.layout.headers, cp)
    requires cp.proto != IPv4 && cp.ipv4 && cp.hdrIdx == cp.ipIdx + 1
    requires var ip := p.layout.headers[cp.ipIdx].start;
             p.layout.headers[cp.hdrIdx].start == ip + 20 && p.buf[ip] == 0x45 &&
             Word16(true, p.buf[ip + 2], p.buf[ip + 3]) >= 20 + ByteLength(cp.proto)
    ensures FieldIsSummed(Cleared(p.buf, p.layout.headers, cp), p.layout.headers, cp)
  {
    LengthBehindIPv4(p.buf, p.layout.headers, cp);
    FieldIsSummedExactly(p, cp);
  }

  lemma {:induction false} FieldApart(p: PacketLayout.Pkt, cp: Params, i: nat)
    requires PacketLayout.WellPlaced(p.layout) && WholeHeaders(p.layout.headers, cp)
    requires i < |p.layout.headers| && i != cp.hdrIdx
    ensures Apart(Field(p.layout.headers, cp), p.layout.headers[i].start, p.layout.headers[i].len)
  {
    var hs := p.layout.headers;
    if i < cp.hdrIdx {
      assert PacketLayout.Disjoint(hs[i], hs[cp.hdrIdx]);
    } else {
      assert PacketLayout.Disjoint(hs[cp.hdrIdx], hs[i]);
    }
  }

  /** Every packet with headers in place, also after adds, deletes and edits: if no carry is lost while the checksum
      is computed, verifying it succeeds exactly when none is lost then either. */
  lemma {:induction false} PacketRoundTrip(p: PacketLayout.Pkt, cp: Params, s1: nat, s2: nat)
    requires PacketLayout.WellPlaced(p.layout) && WholeHeaders(p.layout.headers, cp)
    requires Fits(p.buf, p.layout.headers, cp)
    requires FieldOffset(cp.proto) + 2 <= SummedLength(p.buf, p.layout.headers, cp) && s1 < 4 && s2 < 4
    requires Keeps(Cleared(p.buf, p.layout.headers, cp), p.layout.headers, cp, s1)
    ensures var out := Computed(p.buf, p.layout.headers, cp, s1);
            Verifies(out, p.layout.headers, cp, s2) <==> Keeps(out, p.layout.headers, cp, s2)
  {
    var hs := p.layout.headers;
    FieldIsSummedExactly(p, cp);
    ComputeThenVerify(p.buf, hs, cp, s1, s2);
    KeepsShows(Cleared(p.buf, hs, cp), hs, cp, s1);
    KeepsShows(Computed(p.buf, hs, cp, s1), hs, cp, s2);
  }

  // ----- the code, in place on the packet buffer -----

  lemma {:induction false} SumConcat(a: seq<Chunk>, b: seq<Chunk>, acc: Acc)
    requires Aligned(a) && Aligned(b) && acc.sum < WORD32
    ensures Aligned(a + b) && SumChunks(a + b, acc) == SumChunks(b, SumChunks(a, acc))
    decreases |a|
  {
    if a == [] {
      assert a + b == b;
    } else {
      var r := CsumPartial(a[0].align, a[0].bytes, acc.sum);
      var next := Acc(r.sum, acc.wraps + r.wraps);
      SumConcat(a[1..], b, next);
      assert a + b == [a[0]] + (a[1..] + b);
      SumCons(a[0], a[1..] + b, acc);
    }
  }

  lemma {:induction false} SumCons(c: Chunk, rest: seq<Chunk>, acc: Acc)
    requires c.align < 4 && Aligned(rest) && acc.sum < WORD32
    ensures var r := CsumPartial(c.align, c.bytes, acc.sum);
            Aligned([c] + rest) && SumChunks([c] + rest, acc) == SumChunks(rest, Acc(r.sum, acc.wraps + r.wraps))
  {
    assert ([c] + rest)[1..] == rest;
  }

  /** The loop over the headers from hdr_idx on, each cut to the length that is left. */
  method SumBody(buf: seq<byte>, hs: seq<Header>, hdrIdx: nat, len0: nat, sum0: nat, ghost wraps0: nat)
    returns (sum: nat, ghost wraps: nat)
    requires forall i :: 0 <= i < |hs| ==> hs[i].start + hs[i].len <= |buf|
    requires sum0 < WORD32
    ensures Acc(sum, wraps) == SumChunks(BodyChunks(buf, hs, hdrIdx, len0), Acc(sum0, wraps0))
  {
    sum, wraps := sum0, wraps0;
    var i: nat, len: nat := hdrIdx, len0;
    ghost var goal := SumChunks(BodyChunks(buf, hs, hdrIdx, len0), Acc(sum0, wraps0));
    while i < |hs|
      invariant sum < WORD32 && SumChunks(BodyChunks(buf, hs, i, len), Acc(sum, wraps)) == goal
    {
      var n := Min(len, hs[i].len);
      sum, wraps := SumHeader(buf, hs, i, len, sum, wraps);
      i, len := i + 1, len - n;
    }
  }

  method SumHeader(buf: seq<byte>, hs: seq<Header>, i: nat, len: nat, sum0: nat, ghost wraps0: nat)
    returns (sum: nat, ghost wraps: nat)
    requires forall i :: 0 <= i < |hs| ==> hs[i].start + hs[i].len <= |buf|
    requires i < |hs| && sum0 < WORD32
    ensures sum < WORD32
    ensures SumChunks(BodyChunks(buf, hs, i, len), Acc(sum0, wraps0)) ==
            SumChunks(BodyChunks(buf, hs, i + 1, len - Min(len, hs[i].len)), Acc(sum, wraps))
  {
    var n := Min(len, hs[i].len);
    BodyFirst(buf, hs, i, len, Acc(sum0, wraps0));
    ghost var lost;
    sum, lost := CsumPartialLoop(hs[i].start % 4, buf[hs[i].start..hs[i].start + n], sum0);
    wraps := wraps0 + lost;
  }

  lemma {:induction false} BodyFirst(all: seq<byte>, hs: seq<Header>, i: nat, len: nat, acc: Acc)
    requires forall i :: 0 <= i < |hs| ==> hs[i].start + hs[i].len <= |all|
    requires i < |hs| && acc.sum < WORD32
    ensures var n := Min(len, hs[i].len);
            var r := CsumPartial(hs[i].start % 4, all[hs[i].start..hs[i].start + n], acc.sum);
            SumChunks(BodyChunks(all, hs, i, len), acc) ==
              SumChunks(BodyChunks(all, hs, i + 1, len - n), Acc(r.sum, acc.wraps + r.wraps))
  {
    var n := Min(len, hs[i].len);
    SumCons(Chunk(hs[i].start % 4, all[hs[i].start..hs[i].start + n]), BodyChunks(all, hs, i + 1, len - n), acc);
  }

  /** The pseudo header of layer 4. */
  method SumPseudo(buf: seq<byte>, hs: seq<Header>, cp: Params, stack: nat, len: nat)
    returns (sum: nat, ghost wraps: nat)
    requires Fits(buf, hs, cp) && cp.proto != IPv4 && stack < 4 && len == PayloadLength(buf, hs, cp)
    ensures Acc(sum, wraps) == SumChunks(PseudoChunks(buf, hs, cp, stack), Acc(0, 0)) && sum < WORD32
  {
    var ip := hs[cp.ipIdx].start;
    sum, wraps := 0, 0;
    if cp.proto == Icmpv4 { return; }
    var addresses := if cp.ipv4 then buf[ip + 12..ip + 20] else buf[ip + 8..ip + 40];
    var pseudo: seq<byte> :=
      if cp.ipv4 then [0, ProtocolNumber(cp.proto), len / 256, len % 256]
      else [0, 0, len / 256, len % 256, 0, 0, 0, ProtocolNumber(cp.proto)];
    var align := (if cp.ipv4 then ip + 12 else ip + 8) % 4;
    assert PseudoChunks(buf, hs, cp, stack) == [Chunk(align, addresses), Chunk(stack, pseudo)];
    sum, wraps := SumTwo(Chunk(align, addresses), Chunk(stack, pseudo));
  }

  method SumTwo(c: Chunk, d: Chunk) returns (sum: nat, ghost wraps: nat)
    requires c.align < 4 && d.align < 4
    ensures Acc(sum, wraps) == SumChunks([c, d], Acc(0, 0)) && sum < WORD32
  {
    assert [c, d] == [c] + [d] && [d] == [d] + [];
    SumCons(c, [d], Acc(0, 0));
    ghost var lost;
    sum, wraps := CsumPartialLoop(c.align, c.bytes, 0);
    SumCons(d, [], Acc(sum, wraps));
    sum, lost := CsumPartialLoop(d.align, d.bytes, sum);
    wraps := wraps + lost;
  }

  method HeaderSum(buf: seq<byte>, hs: seq<Header>, cp: Params, stack: nat) returns (c: nat)
    requires Fits(buf, hs, cp) && stack < 4
    ensures c == CsumFold(Summed(buf, hs, cp, stack).sum)
  {
    if cp.proto == IPv4 {
      var ip := hs[cp.hdrIdx].start;
      var header := buf[ip..ip + IpLength(buf[ip])];
      SumCons(Chunk(ip % 4, header), [], Acc(0, 0));
      assert [Chunk(ip % 4, header)] + [] == [Chunk(ip % 4, header)];
      var sum, wraps := CsumPartialLoop(ip % 4, header, 0);
      c := CsumFold(sum);
    } else {
      var len := PayloadLength(buf, hs, cp);
      SumConcat(PseudoChunks(buf, hs, cp, stack), BodyChunks(buf, hs, cp.hdrIdx, len), Acc(0, 0));
      var sum, wraps := SumPseudo(buf, hs, cp, stack, len);
      sum, wraps := SumBody(buf, hs, cp.hdrIdx, len, sum, wraps);
      c := CsumFold(sum);
    }
  }

  method ChecksumCompute(buf: array<byte>, hs: seq<Header>, cp: Params, stack: nat)
    requires Fits(buf[..], hs, cp) && stack < 4
    modifies buf
    ensures buf[..] == Computed(old(buf[..]), hs, cp, stack)
  {
    var f := Field(hs, cp);
    buf[f], buf[f + 1] := 0, 0;
    assert buf[..] == PutField(old(buf[..]), f, 0, 0);
    var c := HeaderSum(buf[..], hs, cp, stack);
    buf[f], buf[f + 1] := c / 256, c % 256;
  }

  /** A wrong checksum is counted at the receiving interface, if the packet has one. */
  method ChecksumVerify(buf: array<byte>, hs: seq<Header>, cp: Params, stack: nat, received: bool, errors: nat)
    returns (ok: bool, errors': nat)
    requires Fits(buf[..], hs, cp) && stack < 4
    ensures ok == Verifies(buf[..], hs, cp, stack)
    ensures errors' == if ok || !received then errors else errors + 1
  {
    var c := HeaderSum(buf[..], hs, cp, stack);
    ok := c == 0;
    errors' := errors;
    if !ok && received { errors' := errors + 1; }
  }

  // ----- TTL reduction -----

  /** action_TTLREDUCE on a header at `start`: TTL at an even or odd offset, checksum adjusted by the
      decrement in that byte position (section 3 of RFC 1624) unless the action has no checksum. */
  function TtlReduced(buf: seq<byte>, ttl: nat, odd: bool, csum: nat, adjust: bool): (r: seq<byte>)
    requires ttl < |buf| && csum + 2 <= |buf|
    ensures |r| == |buf|
  {
    var b: seq<byte> := if buf[ttl] > 0 then buf[ttl := buf[ttl] - 1] else buf;
    if adjust then
      var complement := 65535 - Word16(true, b[csum], b[csum + 1]);
      var c := 65535 - (complement - (if odd then 1 else 256)) % 65536;
      PutField(b, csum, c / 256, c % 256)
    else b
  }

  method TtlReduce(buf: array<byte>, ttl: nat, odd: bool, csum: nat, adjust: bool) returns (metadata: byte)
    requires ttl < buf.Length && csum + 2 <= buf.Length
    modifies buf
    ensures buf[..] == TtlReduced(old(buf[..]), ttl, odd, csum, adjust)
    ensures metadata == if old(buf[ttl]) > 0 then old(buf[ttl]) - 1 else 0
  {
    if buf[ttl] > 0 { buf[ttl] := buf[ttl] - 1; }
    metadata := buf[ttl];
    if adjust {
      var c := 65535 - Word16(true, buf[csum], buf[csum + 1]);
      c := 65535 - (c - (if odd then 1 else 256)) % 65536;
      buf[csum], buf[csum + 1] := c / 256, c % 256;
    }
  }

  /** A header is correct by the reference when its word sum is a nonzero multiple of 65535. */
  ghost predicate Correct(d: seq<byte>) { CorrectSum(EvenSum(d)) }

  ghost predicate CorrectSum(x: nat) { x > 0 && Congruent(x, 0) }

  /** Reducing the TTL of a correct IPv4 header (TTL in byte 8, checksum in bytes 10 and 11) leaves it
      correct exactly when the TTL was nonzero and the complemented checksum was at least 256, that is
      the checksum's high byte was not 255; without the adjustment exactly when the TTL was zero. */
  lemma {:induction false} TtlReduceKeepsCorrect(d: seq<byte>)
    requires |d| >= 12 && Correct(d)
    ensures Correct(TtlReduced(d, 8, false, 10, true)) <==> d[8] != 0 && d[10] != 255
    ensures Correct(TtlReduced(d, 8, false, 10, false)) <==> d[8] == 0
  {
    var b: seq<byte> := if d[8] > 0 then PutField(d, 8, d[8] - 1, d[9]) else d;
    assert b == TtlReduced(d, 8, false, 10, false);
    if d[8] > 0 { EvenSumPut(d, 8, d[8] - 1, d[9]); }
    HighByteUp(b[10], b[11]);
    var up: byte := if d[10] == 255 then 0 else d[10] + 1;
    EvenSumPut(b, 10, up, d[11]);
    NotMultiple(EvenSum(d), EvenSum(b));
    NotMultiple(EvenSum(d), EvenSum(PutField(b, 10, up, d[11])));
  }

  /** An IPv4 header from 10.0.0.1 to 10.0.0.2 with a TTL of 1 and the checksum 0xfffe. */
  const UNLUCKY: seq<byte> := [69, 0, 0, 20, 165, 216, 0, 0, 1, 17, 255, 254, 10, 0, 0, 1, 10, 0, 0, 2]

  /** It is correct, and reducing its TTL makes it wrong, with or without adjustment. */
  lemma {:induction false} TtlReduceBreaks(d: seq<byte>)
    requires d == UNLUCKY
    ensures Correct(d) && !Correct(TtlReduced(d, 8, false, 10, true)) && !Correct(TtlReduced(d, 8, false, 10, false))
  {
    assert WordSum(false, d, 20) == 0;
    SplitTwo(false, d, 18);
    assert WordSum(false, d, 18) == 512;
    SplitTwo(false, d, 16);
    assert WordSum(false, d, 16) == 522;
    SplitTwo(false, d, 14);
    assert WordSum(false, d, 14) == 778;
    SplitTwo(false, d, 12);
    assert WordSum(false, d, 12) == 788;
    SplitTwo(false, d, 10);
    assert WordSum(false, d, 10) == 66067;
    SplitTwo(false, d, 8);
    assert WordSum(false, d, 8) == 70420;
    SplitTwo(false, d, 6);
    assert WordSum(false, d, 6) == 70420;
    SplitTwo(false, d, 4);
    assert WordSum(false, d, 4) == 125881;
    SplitTwo(false, d, 2);
    assert WordSum(false, d, 2) == 131001;
    SplitTwo(false, d, 0);
    assert WordSum(false, d, 0) == 131070;
    assert EvenSum(d) == 0 + Times(2);
    TtlReduceKeepsCorrect(d);
  }

  lemma {:induction false} NotMultiple(x: int, y: int)
    requires Congruent(x, 0) && -MOD < y - x < MOD
    ensures Congruent(y, 0) <==> x == y
  {
    var k :| x == 0 + Times(k);
    if Congruent(y, 0) {
      var j :| y == 0 + Times(j);
      assert y - x == Times(j - k);
    }
  }

  lemma {:induction false} HighByteUp(hi: byte, lo: byte)
    ensures var c := 65535 - (65535 - Word16(true, hi, lo) - 256) % 65536;
            c / 256 == (if hi == 255 then 0 else hi + 1) && c % 256 == lo
  {
  }

  /** What checksum_verify reports for a packet that the reference calls correct, and for one that it accepts:
      the two agree exactly when no carry is lost. */
  lemma {:induction false} VerifyIsCorrect(buf: seq<byte>, hs: seq<Header>, cp: Params, stack: nat)
    requires Fits(buf, hs, cp) && stack < 4
    ensures var x := Total(Chunks(buf, hs, cp, stack));
            (CorrectSum(x) ==> (Verifies(buf, hs, cp, stack) <==> Keeps(buf, hs, cp, stack))) &&
            (Verifies(buf, hs, cp, stack) ==> (CorrectSum(x) <==> Keeps(buf, hs, cp, stack)))
  {
    var cs := Chunks(buf, hs, cp, stack);
    ChunksAdd(cs, Acc(0, 0));
    KeepsShows(buf, hs, cp, stack);
    SumIsCorrect(Total(cs), SumChunks(cs, Acc(0, 0)));
  }

  /** For an IPv4 header the reference is the word sum of its bytes. */
  lemma {:induction false} IPv4Total(buf: seq<byte>, hs: seq<Header>, cp: Params, stack: nat)
    requires Fits(buf, hs, cp) && stack < 4 && cp.proto == IPv4
    ensures var ip := hs[cp.hdrIdx].start;
            CorrectSum(Total(Chunks(buf, hs, cp, stack))) <==> Correct(buf[ip..ip + IpLength(buf[ip])])
  {
    var ip := hs[cp.hdrIdx].start;
    var c := Chunk(ip % 4, buf[ip..ip + IpLength(buf[ip])]);
    TotalCons(c, []);
    assert [c] + [] == [c];
  }

  /** A sum is correct without lost carries, and wrong with them, as long as there are fewer than 65535. */
  lemma {:induction false} SumIsCorrect(x: nat, r: Acc)
    requires Added(Acc(0, 0), x, r) && r.wraps < MOD && r.sum < WORD32
    ensures CorrectSum(x) ==> (CsumFold(r.sum) == 0 <==> r.wraps == 0)
    ensures CsumFold(r.sum) == 0 ==> (CorrectSum(x) <==> r.wraps == 0)
  {
    ZeroFold(r.sum);
    var k :| r.sum + r.wraps == 0 + 0 + x + Times(k);
    if Congruent(r.sum, 0) {
      var j :| r.sum == 0 + Times(j);
      assert x == r.wraps + Times(j - k);
    }
    if Congruent(x, 0) {
      var j :| x == 0 + Times(j);
      assert r.sum == Times(j + k) - r.wraps;
    }
  }

  // ----- the reference: one string of bytes -----

  lemma {:induction false} WordSumBehind(a: seq<byte>, b: seq<byte>, odd: bool, k: nat)
    ensures WordSum(odd, a + b, |a| + k) == WordSum(odd, b, k)
    decreases |b| - k
  {
    if k < |b| {
      assert (a + b)[|a| + k] == b[k];
      WordSumBehind(a, b, !odd, k + 1);
    }
  }

  lemma {:induction false} WordSumFront(a: seq<byte>, b: seq<byte>, i: nat)
    requires i % 2 == 0 == |a| % 2 && i <= |a|
    ensures WordSum(false, a + b, i) == WordSum(false, a, i) + WordSum(false, b, 0)
    decreases |a| - i
  {
    if i < |a| {
      SplitTwo(false, a, i);
      SplitTwo(false, a + b, i);
      WordSumFront(a, b, i + 2);
    } else {
      WordSumBehind(a, b, false, 0);
    }
  }

  /** Word sums add up where the first string has an even length. */
  lemma {:induction false} EvenSumConcat(a: seq<byte>, b: seq<byte>)
    requires |a| % 2 == 0
    ensures EvenSum(a + b) == EvenSum(a) + EvenSum(b)
  {
    WordSumFront(a, b, 0);
  }

  /** The bytes of header i and all that follow. */
  function BytesFrom(buf: seq<byte>, hs: seq<Header>, i: nat): seq<byte>
    requires forall j :: 0 <= j < |hs| ==> hs[j].start + hs[j].len <= |buf|
    decreases |hs| - i
  {
    if i >= |hs| then [] else buf[hs[i].start..hs[i].start + hs[i].len] + BytesFrom(buf, hs, i + 1)
  }

  function Cut(s: seq<byte>, n: nat): seq<byte> { if n < |s| then s[..n] else s }

  /** Every header but the last has an even length, as all protocols have. */
  predicate EvenLengths(hs: seq<Header>) { forall i :: 0 <= i < |hs| - 1 ==> hs[i].len % 2 == 0 }

  lemma {:induction false} ProtocolsAreEven(p: Proto)
    ensures ByteLength(p) % 2 == 0
  {
  }

  lemma {:induction false} NothingLeft(buf: seq<byte>, hs: seq<Header>, i: nat)
    requires forall j :: 0 <= j < |hs| ==> hs[j].start + hs[j].len <= |buf|
    ensures Total(BodyChunks(buf, hs, i, 0)) == 0
    decreases |hs| - i
  {
    if i < |hs| {
      NothingLeft(buf, hs, i + 1);
      BodyTotal(buf, hs, i, 0);
      assert EvenSum([]) == 0;
      assert buf[hs[i].start..hs[i].start + 0] == [];
    }
  }

  lemma {:induction false} BodyEnds(buf: seq<byte>, hs: seq<Header>, i: nat, len: nat)
    requires (forall j :: 0 <= j < |hs| ==> hs[j].start + hs[j].len <= |buf|) && i < |hs| && len <= hs[i].len
    ensures Total(BodyChunks(buf, hs, i, len)) == EvenSum(Cut(BytesFrom(buf, hs, i), len))
  {
    var first := buf[hs[i].start..hs[i].start + hs[i].len];
    BodyTotal(buf, hs, i, len);
    NothingLeft(buf, hs, i + 1);
    CutFirst(first, BytesFrom(buf, hs, i + 1), len);
    assert first[..len] == buf[hs[i].start..hs[i].start + len];
  }

  lemma {:induction false} FirstIsEven(buf: seq<byte>, hs: seq<Header>, i: nat)
    requires (forall j :: 0 <= j < |hs| ==> hs[j].start + hs[j].len <= |buf|) && EvenLengths(hs) && i < |hs|
    ensures hs[i].len % 2 == 0 || BytesFrom(buf, hs, i + 1) == []
  {
  }

  lemma {:induction false} BodyIsOne(buf: seq<byte>, hs: seq<Header>, i: nat, len: nat)
    requires (forall j :: 0 <= j < |hs| ==> hs[j].start + hs[j].len <= |buf|) && EvenLengths(hs)
    ensures Total(BodyChunks(buf, hs, i, len)) == EvenSum(Cut(BytesFrom(buf, hs, i), len))
    decreases |hs| - i
  {
    if i >= |hs| {
      assert EvenSum([]) == 0;
    } else {
      var first, rest := buf[hs[i].start..hs[i].start + hs[i].len], BytesFrom(buf, hs, i + 1);
      if len <= hs[i].len {
        BodyEnds(buf, hs, i, len);
      } else {
        BodyTotal(buf, hs, i, len);
        BodyIsOne(buf, hs, i + 1, len - hs[i].len);
        FirstIsEven(buf, hs, i);
        JoinCut(first, rest, len);
      }
    }
  }

  lemma {:induction false} JoinCut(first: seq<byte>, rest: seq<byte>, len: nat)
    requires len > |first| && (|first| % 2 == 0 || rest == [])
    ensures EvenSum(Cut(first + rest, len)) == EvenSum(first) + EvenSum(Cut(rest, len - |first|))
  {
    CutRest(first, rest, len);
    if |first| % 2 == 0 { EvenSumConcat(first, Cut(rest, len - |first|)); } else { LastAlone(first, rest, len); }
  }

  lemma {:induction false} CutFirst(first: seq<byte>, rest: seq<byte>, len: nat)
    requires len <= |first|
    ensures Cut(first + rest, len) == first[..len]
  {
  }

  lemma {:induction false} CutRest(first: seq<byte>, rest: seq<byte>, len: nat)
    requires len > |first|
    ensures Cut(first + rest, len) == first + Cut(rest, len - |first|)
  {
  }

  lemma {:induction false} LastAlone(first: seq<byte>, rest: seq<byte>, len: nat)
    requires rest == [] && len > |first|
    ensures EvenSum(first + Cut(rest, len - |first|)) == EvenSum(first) + EvenSum(Cut(rest, len - |first|))
  {
    assert Cut(rest, len - |first|) == [] && EvenSum([]) == 0;
    assert first + [] == first;
  }

  /** Source and destination address, by their place in an IPv4 (RFC 791) or IPv6 header (RFC 8200). */
  function Addresses(buf: seq<byte>, ip: nat, ipv4: bool): seq<byte>
    requires ip + (if ipv4 then 20 else 40) <= |buf|
  {
    if ipv4 then buf[ip + 12..ip + 16] + buf[ip + 16..ip + 20] else buf[ip + 8..ip + 24] + buf[ip + 24..ip + 40]
  }

  /** Length and protocol number, as the pseudo header has them. */
  function LengthAndProtocol(proto: Proto, ipv4: bool, len: nat): (r: seq<byte>)
    requires len < 65536
    ensures |r| == if ipv4 then 4 else 8
  {
    var number: byte := if proto == Udp then 17 else if proto == Tcp then 6 else 58;
    if ipv4 then [0, number, len / 256, len % 256] else [0, 0, len / 256, len % 256, 0, 0, 0, number]
  }

  /** The header and what follows it, as far as the length goes. */
  function MessageOf(buf: seq<byte>, hs: seq<Header>, cp: Params): seq<byte>
    requires Fits(buf, hs, cp) && cp.proto != IPv4
  {
    Cut(BytesFrom(buf, hs, cp.hdrIdx), PayloadLength(buf, hs, cp))
  }

  /** What the checksum of a header is defined over: of IPv4 the header itself, of ICMPv4 the message, of all others
      the addresses, the length, the protocol number and the message (section 3.1 of RFC 9293, section 8.1 of
      RFC 8200). */
  function Covered(buf: seq<byte>, hs: seq<Header>, cp: Params): seq<byte>
    requires Fits(buf, hs, cp)
  {
    if cp.proto == IPv4 then
      var ip := hs[cp.hdrIdx].start;
      buf[ip..ip + 4 * (buf[ip] % 16)]
    else if cp.proto == Icmpv4 then MessageOf(buf, hs, cp)
    else
      Addresses(buf, hs[cp.ipIdx].start, cp.ipv4) +
      (LengthAndProtocol(cp.proto, cp.ipv4, PayloadLength(buf, hs, cp)) + MessageOf(buf, hs, cp))
  }

  /** Right behind the IP header, the length is what the IP header says it carries. */
  lemma {:induction false} LengthIsCarried(buf: seq<byte>, hs: seq<Header>, cp: Params)
    requires Fits(buf, hs, cp) && cp.proto != IPv4 && cp.hdrIdx == cp.ipIdx + 1
    ensures var ip := hs[cp.ipIdx].start;
            var carried: int := if cp.ipv4 then 256 * (buf[ip + 2] as int) + buf[ip + 3] - 4 * (buf[ip] as int % 16)
                                else 256 * (buf[ip + 4] as int) + buf[ip + 5];
            carried >= 0 ==> PayloadLength(buf, hs, cp) == carried
  {
  }

  lemma {:induction false} PseudoParts(buf: seq<byte>, hs: seq<Header>, cp: Params, stack: nat)
    requires Fits(buf, hs, cp) && stack < 4 && cp.proto != IPv4 && cp.proto != Icmpv4
    ensures var cs := PseudoChunks(buf, hs, cp, stack);
            |cs| == 2 && cs[0].bytes == Addresses(buf, hs[cp.ipIdx].start, cp.ipv4) &&
            cs[1].bytes == LengthAndProtocol(cp.proto, cp.ipv4, PayloadLength(buf, hs, cp))
  {
    var ip := hs[cp.ipIdx].start;
    if cp.ipv4 { SliceJoin(buf, ip + 12, ip + 16, ip + 20); } else { SliceJoin(buf, ip + 8, ip + 24, ip + 40); }
  }

  lemma {:induction false} SliceJoin(buf: seq<byte>, a: nat, b: nat, c: nat)
    requires a <= b <= c <= |buf|
    ensures buf[a..b] + buf[b..c] == buf[a..c]
  {
  }

  lemma {:induction false} PseudoIsOne(buf: seq<byte>, hs: seq<Header>, cp: Params, stack: nat)
    requires Fits(buf, hs, cp) && stack < 4 && cp.proto != IPv4 && cp.proto != Icmpv4
    ensures EvenSum(Covered(buf, hs, cp)) ==
            Total(PseudoChunks(buf, hs, cp, stack)) + EvenSum(MessageOf(buf, hs, cp))
  {
    var cs, message := PseudoChunks(buf, hs, cp, stack), MessageOf(buf, hs, cp);
    PseudoParts(buf, hs, cp, stack);
    TotalOfTwo(cs);
    EvenSumConcat(cs[1].bytes, message);
    EvenSumConcat(cs[0].bytes, cs[1].bytes + message);
  }

  /** What the code sums, chunk by chunk, is the word sum of that one string, for every protocol over both IP
      versions. */
  lemma {:induction false} SumsTheCovered(buf: seq<byte>, hs: seq<Header>, cp: Params, stack: nat)
    requires Fits(buf, hs, cp) && stack < 4 && EvenLengths(hs)
    ensures Total(Chunks(buf, hs, cp, stack)) == EvenSum(Covered(buf, hs, cp))
  {
    if cp.proto == IPv4 {
      var ip := hs[cp.hdrIdx].start;
      var c := Chunk(ip % 4, buf[ip..ip + IpLength(buf[ip])]);
      TotalCons(c, []);
      assert [c] + [] == [c];
    } else {
      ChunksTotal(buf, hs, cp, stack);
      BodyIsOne(buf, hs, cp.hdrIdx, PayloadLength(buf, hs, cp));
      if cp.proto != Icmpv4 { PseudoIsOne(buf, hs, cp, stack); }
    }
  }

  /** The verdict against that definition. */
  lemma {:induction false} VerifyIsDefinition(buf: seq<byte>, hs: seq<Header>, cp: Params, stack: nat)
    requires Fits(buf, hs, cp) && stack < 4 && EvenLengths(hs)
    ensures var ok := Correct(Covered(buf, hs, cp));
            (ok ==> (Verifies(buf, hs, cp, stack) <==> Keeps(buf, hs, cp, stack))) &&
            (Verifies(buf, hs, cp, stack) ==> (ok <==> Keeps(buf, hs, cp, stack)))
  {
    SumsTheCovered(buf, hs, cp, stack);
    VerifyIsCorrect(buf, hs, cp, stack);
  }

  // ----- which bytes count -----

  /** Changing one byte changes the word sum, by less than 65535. */
  lemma {:induction false} ByteCounts(d: seq<byte>, o: nat, v: byte)
    requires o < |d| && |d| >= 2 && (o % 2 == 1 || o + 1 < |d|) && v != d[o]
    ensures EvenSum(d[o := v]) != EvenSum(d) && -MOD < EvenSum(d[o := v]) - EvenSum(d) < MOD
  {
    var w := if o % 2 == 0 then o else o - 1;
    var hi, lo := if o % 2 == 0 then v else d[w], if o % 2 == 0 then d[w + 1] else v;
    EvenSumPut(d, w, hi, lo);
    assert PutField(d, w, hi, lo) == d[o := v];
  }

  predicate Elsewhere(hs: seq<Header>, from: nat, k: nat) {
    forall i :: from <= i < |hs| ==> k < hs[i].start || hs[i].start + hs[i].len <= k
  }

  lemma {:induction false} BytesKept(buf: seq<byte>, hs: seq<Header>, i: nat, k: nat, v: byte)
    requires (forall j :: 0 <= j < |hs| ==> hs[j].start + hs[j].len <= |buf|) && k < |buf| && Elsewhere(hs, i, k)
    ensures BytesFrom(buf[k := v], hs, i) == BytesFrom(buf, hs, i)
    decreases |hs| - i
  {
    if i < |hs| {
      BytesKept(buf, hs, i + 1, k, v);
      assert buf[k := v][hs[i].start..hs[i].start + hs[i].len] == buf[hs[i].start..hs[i].start + hs[i].len];
    }
  }

  predicate IsAddress(hs: seq<Header>, cp: Params, k: nat)
    requires cp.ipIdx < |hs|
  {
    var ip := hs[cp.ipIdx].start;
    if cp.ipv4 then ip + 12 <= k < ip + 20 else ip + 8 <= k < ip + 40
  }

  lemma {:induction false} AddressChanged(buf: seq<byte>, ip: nat, ipv4: bool, k: nat, v: byte, o: nat)
    requires ip + (if ipv4 then 20 else 40) <= |buf| && o == k - ip - (if ipv4 then 12 else 8)
    requires if ipv4 then ip + 12 <= k < ip + 20 else ip + 8 <= k < ip + 40
    ensures o < |Addresses(buf, ip, ipv4)| && Addresses(buf, ip, ipv4)[o] == buf[k]
    ensures Addresses(buf[k := v], ip, ipv4) == Addresses(buf, ip, ipv4)[o := v]
  {
  }

  lemma {:induction false} RestKept(buf: seq<byte>, hs: seq<Header>, cp: Params, k: nat, v: byte)
    requires Fits(buf, hs, cp) && cp.proto != IPv4 && cp.proto != Icmpv4 && IsAddress(hs, cp, k)
    requires Elsewhere(hs, cp.hdrIdx, k)
    ensures Fits(buf[k := v], hs, cp) && PayloadLength(buf[k := v], hs, cp) == PayloadLength(buf, hs, cp)
    ensures MessageOf(buf[k := v], hs, cp) == MessageOf(buf, hs, cp)
  {
    BytesKept(buf, hs, cp.hdrIdx, k, v);
  }

  lemma {:induction false} AddressInCovered(buf: seq<byte>, hs: seq<Header>, cp: Params, k: nat, v: byte, o: nat)
    requires Fits(buf, hs, cp) && cp.proto != IPv4 && cp.proto != Icmpv4 && IsAddress(hs, cp, k)
    requires Elsewhere(hs, cp.hdrIdx, k) && o == k - hs[cp.ipIdx].start - (if cp.ipv4 then 12 else 8)
    ensures Fits(buf[k := v], hs, cp) && o + 1 < |Covered(buf, hs, cp)|
    ensures Covered(buf, hs, cp)[o] == buf[k] && Covered(buf[k := v], hs, cp) == Covered(buf, hs, cp)[o := v]
  {
    AddressChanged(buf, hs[cp.ipIdx].start, cp.ipv4, k, v, o);
    RestKept(buf, hs, cp, k, v);
    FrontChanged(Addresses(buf, hs[cp.ipIdx].start, cp.ipv4),
                 LengthAndProtocol(cp.proto, cp.ipv4, PayloadLength(buf, hs, cp)) + MessageOf(buf, hs, cp), o, v);
  }

  lemma {:induction false} FrontChanged(a: seq<byte>, b: seq<byte>, o: nat, v: byte)
    requires o < |a|
    ensures (a + b)[o] == a[o] && (a + b)[o := v] == a[o := v] + b
  {
  }

  /** A packet that was accepted is refused once a byte of an address differs, as long as no carry is lost. */
  lemma {:induction false} AddressCounts(buf: seq<byte>, hs: seq<Header>, cp: Params, s1: nat, s2: nat, k: nat, v: byte)
    requires Fits(buf, hs, cp) && s1 < 4 && s2 < 4 && EvenLengths(hs) && cp.proto != IPv4 && cp.proto != Icmpv4
    requires IsAddress(hs, cp, k) && Elsewhere(hs, cp.hdrIdx, k) && v != buf[k]
    requires Fits(buf[k := v], hs, cp) && Keeps(buf, hs, cp, s1) && Keeps(buf[k := v], hs, cp, s2)
    ensures Verifies(buf, hs, cp, s1) ==> !Verifies(buf[k := v], hs, cp, s2)
  {
    var o := k - hs[cp.ipIdx].start - (if cp.ipv4 then 12 else 8);
    var d := Covered(buf, hs, cp);
    AddressInCovered(buf, hs, cp, k, v, o);
    VerifyIsDefinition(buf, hs, cp, s1);
    VerifyIsDefinition(buf[k := v], hs, cp, s2);
    ByteCounts(d, o, v);
    if Correct(d) { NotMultiple(EvenSum(d), EvenSum(d[o := v])); }
  }

  /** The TTL or hop limit is not covered: what a checksum above IP says does not depend on it. */
  lemma {:induction false} TtlDoesNotCount(buf: seq<byte>, hs: seq<Header>, cp: Params, stack: nat, k: nat, v: byte)
    requires Fits(buf, hs, cp) && stack < 4 && cp.proto != IPv4 && Elsewhere(hs, cp.hdrIdx, k) && k < |buf|
    requires k == hs[cp.ipIdx].start + (if cp.ipv4 then 8 else 7)
    ensures Fits(buf[k := v], hs, cp) && (Verifies(buf[k := v], hs, cp, stack) <==> Verifies(buf, hs, cp, stack))
  {
    assert PayloadLength(buf[k := v], hs, cp) == PayloadLength(buf, hs, cp);
    ChunksKept(buf, hs, cp.hdrIdx, PayloadLength(buf, hs, cp), k, v);
    assert PseudoChunks(buf[k := v], hs, cp, stack) == PseudoChunks(buf, hs, cp, stack) by {
      var ip := hs[cp.ipIdx].start;
      if cp.proto != Icmpv4 && cp.ipv4 { assert buf[k := v][ip + 12..ip + 20] == buf[ip + 12..ip + 20]; }
      if cp.proto != Icmpv4 && !cp.ipv4 { assert buf[k := v][ip + 8..ip + 40] == buf[ip + 8..ip + 40]; }
    }
  }

  lemma {:induction false} ChunksKept(buf: seq<byte>, hs: seq<Header>, i: nat, len: nat, k: nat, v: byte)
    requires (forall j :: 0 <= j < |hs| ==> hs[j].start + hs[j].len <= |buf|) && k < |buf| && Elsewhere(hs, i, k)
    ensures BodyChunks(buf[k := v], hs, i, len) == BodyChunks(buf, hs, i, len)
    decreases |hs| - i
  {
    if i < |hs| {
      var n := Min(len, hs[i].len);
      ChunksKept(buf, hs, i + 1, len - n, k, v);
      assert buf[k := v][hs[i].start..hs[i].start + n] == buf[hs[i].start..hs[i].start + n];
    }
  }
}
