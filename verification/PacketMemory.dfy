/** The packet as it lies in memory: byte buffer and header table changed in place (packet.c), copying,
    serialisation, and the merged output vector (if_utils.c). */
module PacketMemory {
  import opened Basics
  import opened Bits
  import opened Protocols
  import opened PacketLayout

  class Packet {
    const buf: array<byte>
    const table: array<Header>
    var headerCount: nat
    var start: nat
    var len: nat
    var scratchLen: nat

    ghost predicate Ok()
      reads this
    {
      buf.Length == BUF_LEN && table.Length == MAX_HEADERS && headerCount <= MAX_HEADERS
    }

    ghost function Where(): (l: Layout)
      requires Ok()
      reads this, table
    {
      Layout(start, len, scratchLen, table[..headerCount])
    }

    /** A packet received into the middle of the buffer. */
    constructor (len: nat)
      requires START_OFFSET + len <= BUF_LEN
      ensures Ok() && Where() == Layout(START_OFFSET, len, 0, []) && fresh(buf) && fresh(table)
      ensures forall k :: 0 <= k < BUF_LEN ==> buf[k] == 0
    {
      buf := new byte[BUF_LEN](i => 0);
      table := new Header[MAX_HEADERS](i => Header(Payload, 0, 0));
      headerCount, start, scratchLen := 0, START_OFFSET, 0;
      this.len := len;
    }

    method Identify(proto: Proto, offset: nat, length: nat) returns (ok: bool)
      requires Ok()
      modifies this`headerCount, table
      ensures Ok() && ok == IdentifyHeader(old(Where()), proto, offset, length).Some?
      ensures Where() == if ok then IdentifyHeader(old(Where()), proto, offset, length).value else old(Where())
    {
      if headerCount == MAX_HEADERS { return false; }
      if headerCount > 0 && table[headerCount - 1].start >= start + offset { return false; }
      if offset + length > len { return false; }
      table[headerCount] := Header(proto, start + offset, length);
      headerCount := headerCount + 1;
      return true;
    }

    method Add(idx: nat, proto: Proto, length: nat) returns (ok: bool)
      requires Ok()
      modifies this`headerCount, this`scratchLen, table
      ensures Ok() && ok == AddHeader(old(Where()), idx, proto, length).Some?
      ensures Where() == if ok then AddHeader(old(Where()), idx, proto, length).value else old(Where())
    {
      if headerCount == MAX_HEADERS { return false; }
      if idx > headerCount { return false; }
      if scratchLen + length >= start { return false; }
      var at := scratchLen;
      scratchLen := scratchLen + length;
      InsertEntry(table, idx, headerCount, Header(proto, at, length));
      headerCount := headerCount + 1;
      return true;
    }

    method Del(idx: nat)
      requires Ok()
      modifies this`headerCount, table
      ensures Ok() && Where() == DelHeader(old(Where()), idx)
    {
      if idx >= headerCount { return; }
      MoveDown(table, idx, headerCount);
      headerCount := headerCount - 1;
    }

    static method InsertEntry(t: array<Header>, idx: nat, count: nat, h: Header)
      requires idx <= count < t.Length
      modifies t
      ensures t[..count + 1] == old(t[..count])[..idx] + [h] + old(t[..count])[idx..]
    {
      MoveUp(t, idx, count);
      t[idx] := h;
      assert t[..count + 1] == t[..idx] + [t[idx]] + t[idx + 1..count + 1];
      assert old(t[..count])[..idx] == old(t[..idx]) && old(t[..count])[idx..] == old(t[idx..count]);
    }

    /** memmove of entries [idx, count) one place up. */
    static method MoveUp(t: array<Header>, idx: nat, count: nat)
      requires idx <= count < t.Length
      modifies t
      ensures t[..idx] == old(t[..idx]) && t[idx + 1..count + 1] == old(t[idx..count])
    {
      ghost var was := t[..];
      var k := count;
      while k > idx
        invariant idx <= k <= count
        invariant forall j :: 0 <= j <= k ==> t[j] == was[j]
        invariant forall j :: k < j <= count ==> t[j] == was[j - 1]
      {
        t[k] := t[k - 1];
        k := k - 1;
      }
    }

    /** memmove of entries [idx + 1, count) one place down. */
    static method MoveDown(t: array<Header>, idx: nat, count: nat)
      requires idx < count <= t.Length
      modifies t
      ensures t[..count - 1] == old(t[..idx]) + old(t[idx + 1..count])
    {
      ghost var was := t[..];
      var k := idx;
      while k + 1 < count
        invariant idx <= k < count
        invariant forall j :: 0 <= j < idx || k <= j < count ==> t[j] == was[j]
        invariant forall j :: idx <= j < k ==> t[j] == was[j + 1]
      {
        t[k] := t[k + 1];
        k := k + 1;
      }
    }

    method ClearHeaders()
      requires Ok()
      modifies this`headerCount, this`scratchLen
      ensures Ok() && Where() == Layout(start, len, 0, [])
    {
      headerCount, scratchLen := 0, 0;
    }

    /** The length of the wire image. */
    method Length() returns (n: nat)
      requires Ok() && InBuffer(buf[..], table[..headerCount])
      ensures n == |Image(buf[..], table[..headerCount])|
    {
      n := 0;
      for i := 0 to headerCount
        invariant n == |Image(buf[..], table[..i])|
      {
        assert table[..i + 1][..i] == table[..i];
        n := n + table[i].len;
      }
    }
  }

  /** A deep copy: the used part of the buffer and the header table. */
  method CopyPacket(p: Packet) returns (q: Packet)
    requires p.Ok() && WellPlaced(p.Where()) && START_OFFSET + p.len <= BUF_LEN
    ensures fresh(q) && fresh(q.buf) && fresh(q.table) && q.Ok() && q.Where() == p.Where()
    ensures q.buf[..p.start + p.len] == p.buf[..p.start + p.len]
  {
    q := new Packet(p.len);
    q.start, q.scratchLen, q.headerCount := p.start, p.scratchLen, p.headerCount;
    for i := 0 to p.headerCount
      invariant q.table[..i] == p.table[..i]
      invariant q.headerCount == p.headerCount && q.start == p.start && q.scratchLen == p.scratchLen && q.len == p.len
      modifies q.table
    {
      q.table[i] := p.table[i];
    }
    for i := 0 to p.start + p.len
      invariant q.buf[..i] == p.buf[..i]
      modifies q.buf
    {
      q.buf[i] := p.buf[i];
    }
  }

  /** The copied part of the buffer holds every header, so the copy has the same wire image. */
  lemma {:induction false} CopyHasSameImage(a: seq<byte>, b: seq<byte>, l: Layout)
    requires |a| == |b| == BUF_LEN && WellPlaced(l) && a[..l.start + l.len] == b[..l.start + l.len]
    ensures InBuffer(a, l.headers) && Items(a, l.headers) == Items(b, l.headers)
  {
    forall i | 0 <= i < |l.headers|
      ensures l.headers[i].start + l.headers[i].len <= |a| && ItemOf(a, l.headers[i]) == ItemOf(b, l.headers[i])
    {
      var h := l.headers[i];
      assert Inside(l, h);
      SameSlice(a, b, l.start + l.len, h.start, h.start + h.len);
    }
  }

  lemma {:induction false} SameSlice(a: seq<byte>, b: seq<byte>, n: nat, i: nat, j: nat)
    requires i <= j <= n <= |a| && n <= |b| && a[..n] == b[..n]
    ensures a[i..j] == b[i..j]
  {
    forall k | i <= k < j
      ensures a[k] == b[k]
    {
      assert a[..n][k] == b[..n][k];
    }
  }

  // ----- on the wire -----

  /** serialize_packet: the header strings copied one after the other into the receive space. The length is not
      looked at: what is longer than that space is written past the buffer. */
  method Serialize(p: Packet) returns (overrun: bool, q: Packet)
    requires p.Ok() && InBuffer(p.buf[..], p.table[..p.headerCount])
    ensures fresh(q) && fresh(q.buf)
    ensures overrun <==> START_OFFSET + TotalLength(p.table[..p.headerCount]) > BUF_LEN
    ensures !overrun ==> q.Ok() && START_OFFSET + q.len <= BUF_LEN && q.Where() == Layout(START_OFFSET, q.len, 0, [])
    ensures !overrun ==> q.buf[START_OFFSET..START_OFFSET + q.len] == Image(p.buf[..], p.table[..p.headerCount])
  {
    var total := p.Length();
    ImageLength(p.buf[..], p.table[..p.headerCount]);
    overrun := START_OFFSET + total > BUF_LEN;
    q := new Packet(if overrun then 0 else total);
    if !overrun { SerializeInto(q.buf, p.buf[..], p.table[..p.headerCount]); }
  }

  method SerializeInto(dst: array<byte>, src: seq<byte>, hs: seq<Header>)
    requires InBuffer(src, hs) && START_OFFSET + |Image(src, hs)| <= dst.Length
    modifies dst
    ensures dst[START_OFFSET..START_OFFSET + |Image(src, hs)|] == Image(src, hs)
  {
    var n := 0;
    for i := 0 to |hs|
      invariant n == |Image(src, hs[..i])| <= |Image(src, hs)|
      invariant dst[START_OFFSET..START_OFFSET + n] == Image(src, hs[..i])
    {
      ImagePrefix(src, hs, i + 1);
      ImageNext(src, hs, i);
      CopyInto(dst, START_OFFSET, n, src[hs[i].start..hs[i].start + hs[i].len]);
      n := n + hs[i].len;
    }
    assert hs[..|hs|] == hs;
  }

  lemma {:induction false} ImagePrefix(buf: seq<byte>, hs: seq<Header>, n: nat)
    requires InBuffer(buf, hs) && n <= |hs|
    ensures |Image(buf, hs[..n])| <= |Image(buf, hs)|
    decreases |hs|
  {
    if n < |hs| {
      ImagePrefix(buf, hs[..|hs| - 1], n);
      assert hs[..|hs| - 1][..n] == hs[..n];
    } else {
      assert hs[..n] == hs;
    }
  }

  /** memcpy behind the n bytes already written at `base`. */
  method CopyInto(dst: array<byte>, base: nat, n: nat, part: seq<byte>)
    requires base + n + |part| <= dst.Length
    modifies dst
    ensures dst[base..base + n + |part|] == old(dst[base..base + n]) + part
  {
    for i := 0 to |part|
      invariant dst[base..base + n] == old(dst[base..base + n]) && dst[base + n..base + n + i] == part[..i]
    {
      dst[base + n + i] := part[i];
    }
  }

  datatype Iovec = Iovec(base: nat, len: nat)

  predicate IovInBuffer(buf: seq<byte>, iov: seq<Iovec>) {
    forall i :: 0 <= i < |iov| ==> iov[i].base + iov[i].len <= |buf|
  }

  /** What sendmsg puts on the wire. */
  function Gathered(buf: seq<byte>, iov: seq<Iovec>): (w: seq<byte>)
    requires IovInBuffer(buf, iov)
  {
    if iov == [] then []
    else Gathered(buf, iov[..|iov| - 1]) + buf[iov[|iov| - 1].base..iov[|iov| - 1].base + iov[|iov| - 1].len]
  }

  lemma {:induction false} ImageNext(buf: seq<byte>, hs: seq<Header>, i: nat)
    requires InBuffer(buf, hs) && i < |hs|
    ensures Image(buf, hs[..i + 1]) == Image(buf, hs[..i]) + buf[hs[i].start..hs[i].start + hs[i].len]
  {
    assert hs[..i + 1][..i] == hs[..i];
  }

  /** One header: it extends the last vector if it continues it in memory. */
  method MergeHeader(buf: seq<byte>, iov: seq<Iovec>, h: Header, follows: bool) returns (r: seq<Iovec>)
    requires IovInBuffer(buf, iov) && h.start + h.len <= |buf|
    requires follows ==> |iov| > 0 && iov[|iov| - 1].base + iov[|iov| - 1].len == h.start
    ensures 0 < |r| <= |iov| + 1 && IovInBuffer(buf, r) && r[|r| - 1].base + r[|r| - 1].len == h.start + h.len
    ensures Gathered(buf, r) == Gathered(buf, iov) + buf[h.start..h.start + h.len]
  {
    if follows {
      GatherExtends(buf, iov, h.len);
      r := iov[..|iov| - 1] + [Iovec(iov[|iov| - 1].base, iov[|iov| - 1].len + h.len)];
    } else {
      GatherAppends(buf, iov, Iovec(h.start, h.len));
      r := iov + [Iovec(h.start, h.len)];
    }
  }

  /** The merge loop: headers that continue in memory extend the last vector. */
  method MergeIovecs(buf: seq<byte>, hs: seq<Header>) returns (iov: seq<Iovec>)
    requires InBuffer(buf, hs)
    ensures |iov| <= |hs| && IovInBuffer(buf, iov) && Gathered(buf, iov) == Image(buf, hs)
  {
    iov := [];
    for i := 0 to |hs|
      invariant |iov| <= i && (i > 0 ==> |iov| > 0) && IovInBuffer(buf, iov)
      invariant Gathered(buf, iov) == Image(buf, hs[..i])
      invariant i > 0 ==> iov[|iov| - 1].base + iov[|iov| - 1].len == hs[i - 1].start + hs[i - 1].len
    {
      ImageNext(buf, hs, i);
      iov := MergeHeader(buf, iov, hs[i], i > 0 && hs[i].start == hs[i - 1].start + hs[i - 1].len);
    }
    assert hs[..|hs|] == hs;
  }

  lemma {:induction false} GatherAppends(buf: seq<byte>, iov: seq<Iovec>, v: Iovec)
    requires IovInBuffer(buf, iov) && v.base + v.len <= |buf|
    ensures Gathered(buf, iov + [v]) == Gathered(buf, iov) + buf[v.base..v.base + v.len]
  {
    assert (iov + [v])[..|iov|] == iov;
  }

  lemma {:induction false} Assoc(a: seq<byte>, b: seq<byte>, c: seq<byte>)
    ensures a + (b + c) == (a + b) + c
  {
  }

  lemma {:induction false} GatherExtends(buf: seq<byte>, iov: seq<Iovec>, n: nat)
    requires IovInBuffer(buf, iov) && |iov| > 0
    requires iov[|iov| - 1].base + iov[|iov| - 1].len + n <= |buf|
    ensures var l := iov[|iov| - 1]; var e := l.base + l.len;
            Gathered(buf, iov[..|iov| - 1] + [Iovec(l.base, l.len + n)]) == Gathered(buf, iov) + buf[e..e + n]
  {
    var l, before := iov[|iov| - 1], iov[..|iov| - 1];
    var e := l.base + l.len;
    GatherAppends(buf, before, Iovec(l.base, l.len + n));
    assert buf[l.base..e + n] == buf[l.base..e] + buf[e..e + n];
    Assoc(Gathered(buf, before), buf[l.base..e], buf[e..e + n]);
  }
}
