/** Which stream a received packet belongs to (parsetree.c). */
module StreamMatch {
  import opened Basics
  import opened Bits
  import opened Protocols
  import opened FieldAccess
  import opened PacketLayout
  import opened PacketMemory

  datatype Match = Match(field: Field, value: Value, neg: bool)
  datatype Descriptor = Descriptor(proto: Proto, matches: seq<Match>)

  /** Bytes before header i. */
  function OffsetOf(hs: seq<Descriptor>, i: nat): nat
    requires i <= |hs|
  {
    if i == 0 then 0 else OffsetOf(hs, i - 1) + ByteLength(hs[i - 1].proto)
  }

  lemma {:induction false} OffsetGrows(hs: seq<Descriptor>, i: nat, j: nat)
    requires i <= j <= |hs|
    ensures OffsetOf(hs, i) <= OffsetOf(hs, j)
    decreases j
  {
    if i < j { OffsetGrows(hs, i, j - 1); }
  }

  /** The configuration makes matches on the header's own fields, with a value of the same shape. */
  predicate MatchFits(proto: Proto, m: Match) {
    m.field.offset + m.field.count <= 8 * ByteLength(proto) && m.field.offset / 8 < ByteLength(proto) &&
    m.value.offset + m.value.count <= 8 * |m.value.bytes| && m.value.offset / 8 < |m.value.bytes| &&
    Select(m.field, m.value) != NoAccess
  }

  predicate DescriptorFits(d: Descriptor) {
    forall k :: 0 <= k < |d.matches| ==> MatchFits(d.proto, d.matches[k])
  }

  ghost predicate MatchHolds(buf: seq<byte>, start: nat, proto: Proto, m: Match)
    requires start + ByteLength(proto) <= |buf| && MatchFits(proto, m)
  {
    SameBits(buf, 8 * start + m.field.offset, m.value) != m.neg
  }

  /** The header lies in the buffer and all its matches hold. */
  ghost predicate HeaderMatches(buf: seq<byte>, start: nat, d: Descriptor)
    requires DescriptorFits(d)
  {
    start + ByteLength(d.proto) <= |buf| &&
    forall k :: 0 <= k < |d.matches| ==> MatchHolds(buf, start, d.proto, d.matches[k])
  }

  method MatchHeader(buf: seq<byte>, start: nat, d: Descriptor) returns (ok: bool)
    requires DescriptorFits(d) && start + ByteLength(d.proto) <= |buf|
    ensures ok <==> HeaderMatches(buf, start, d)
  {
    for k := 0 to |d.matches|
      invariant forall j :: 0 <= j < k ==> MatchHolds(buf, start, d.proto, d.matches[j])
    {
      var m := d.matches[k];
      assert MatchFits(d.proto, m);
      var found, same := CompareField(buf, start, m.field, m.value);
      if same == m.neg { return false; }
    }
    return true;
  }

  predicate StreamFits(hs: seq<Descriptor>) { forall i :: 0 <= i < |hs| ==> DescriptorFits(hs[i]) }

  /** Header i can be entered: the table has room, the header before it is not empty, it fits. */
  predicate Enterable(l: Layout, hs: seq<Descriptor>, i: nat)
    requires i < |hs|
  {
    i < MAX_HEADERS && (i > 0 ==> ByteLength(hs[i - 1].proto) > 0) && OffsetOf(hs, i + 1) <= l.len
  }

  /** The packet matches the stream, independently of any other stream tried. */
  ghost predicate StreamMatches(buf: seq<byte>, l: Layout, hs: seq<Descriptor>)
    requires StreamFits(hs)
  {
    forall i :: 0 <= i < |hs| ==> HeaderFound(buf, l, hs, i)
  }

  ghost predicate HeaderFound(buf: seq<byte>, l: Layout, hs: seq<Descriptor>, i: nat)
    requires StreamFits(hs) && i < |hs|
  {
    Enterable(l, hs, i) && HeaderMatches(buf, l.start + OffsetOf(hs, i), hs[i])
  }

  function EntryOf(l: Layout, hs: seq<Descriptor>, i: nat): Header
    requires i < |hs|
  {
    Header(hs[i].proto, l.start + OffsetOf(hs, i), ByteLength(hs[i].proto))
  }

  /** The entries of the first n headers, end to end from the start of the packet. */
  function Entries(l: Layout, hs: seq<Descriptor>, n: nat): (es: seq<Header>)
    requires n <= |hs|
    ensures |es| == n
  {
    if n == 0 then [] else Entries(l, hs, n - 1) + [EntryOf(l, hs, n - 1)]
  }

  lemma {:induction false} EntriesAt(l: Layout, hs: seq<Descriptor>, n: nat, i: nat)
    requires i < n <= |hs|
    ensures Entries(l, hs, n)[i] == EntryOf(l, hs, i)
    decreases n
  {
    if i < n - 1 { EntriesAt(l, hs, n - 1, i); }
  }

  /** With the payload behind them, when the table has room and the last header is not empty. */
  function WithPayload(l: Layout, hs: seq<Descriptor>): seq<Header>
    requires OffsetOf(hs, |hs|) <= l.len
  {
    Entries(l, hs, |hs|) + (if RoomBehind(hs) then [PayloadOf(l, OffsetOf(hs, |hs|))] else [])
  }

  predicate RoomBehind(hs: seq<Descriptor>) {
    |hs| < MAX_HEADERS && (|hs| > 0 ==> ByteLength(hs[|hs| - 1].proto) > 0)
  }

  function PayloadOf(l: Layout, end: nat): Header
    requires end <= l.len
  {
    Header(Payload, l.start + end, l.len - end)
  }

  /** Entering header n behind the first n succeeds exactly when it is enterable. */
  lemma {:induction false} EnterNext(l: Layout, hs: seq<Descriptor>, n: nat)
    requires n < |hs| && n <= MAX_HEADERS && OffsetOf(hs, n) <= l.len
    ensures var r := IdentifyHeader(l.(headers := Entries(l, hs, n)), hs[n].proto, OffsetOf(hs, n),
            ByteLength(hs[n].proto));
            r == if Enterable(l, hs, n) then Some(l.(headers := Entries(l, hs, n + 1))) else None
  {
    if n > 0 { EntriesAt(l, hs, n, n - 1); }
  }

  /** One stream: enter its headers one by one, stop at the first that does not fit or match. */
  method TryStream(p: Packet, hs: seq<Descriptor>) returns (full: bool, offset: nat)
    requires p.Ok() && p.Where() == Layout(p.start, p.len, 0, []) && p.start + p.len <= BUF_LEN && StreamFits(hs)
    modifies p`headerCount, p`scratchLen, p.table
    ensures p.Ok() && (full <==> StreamMatches(p.buf[..], old(p.Where()), hs))
    ensures p.Where() == old(p.Where()).(headers := if full then Entries(old(p.Where()), hs, |hs|) else [])
    ensures full ==> offset == OffsetOf(hs, |hs|) <= p.len && |hs| <= MAX_HEADERS
  {
    ghost var l := p.Where();
    offset := 0;
    for i := 0 to |hs|
      invariant p.Ok() && p.Where() == l.(headers := Entries(l, hs, i)) && i <= MAX_HEADERS
      invariant offset == OffsetOf(hs, i) <= p.len
      invariant forall j :: 0 <= j < i ==> HeaderFound(p.buf[..], l, hs, j)
      modifies p`headerCount, p`scratchLen, p.table
    {
      var ok := TryHeader(p, l, hs, i, offset);
      if !ok {
        p.ClearHeaders();
        return false, offset;
      }
      offset := offset + ByteLength(hs[i].proto);
    }
    full := true;
  }

  /** Enter header i and compare its fields. */
  method TryHeader(p: Packet, ghost l: Layout, hs: seq<Descriptor>, i: nat, offset: nat) returns (ok: bool)
    requires p.Ok() && StreamFits(hs) && i < |hs| && i <= MAX_HEADERS && offset == OffsetOf(hs, i) <= p.len
    requires p.Where() == l.(headers := Entries(l, hs, i)) && p.start + p.len <= BUF_LEN
    modifies p`headerCount, p.table
    ensures p.Ok() && (ok <==> HeaderFound(p.buf[..], l, hs, i))
    ensures p.Where() == l.(headers := Entries(l, hs, if Enterable(l, hs, i) then i + 1 else i))
  {
    EnterNext(l, hs, i);
    ok := p.Identify(hs[i].proto, offset, ByteLength(hs[i].proto));
    if ok { ok := MatchHeader(p.buf[..], p.start + offset, hs[i]); }
  }

  /** After all headers of a stream matched, the payload is entered behind them. */
  lemma {:induction false} EnterPayload(l: Layout, hs: seq<Descriptor>)
    requires |hs| <= MAX_HEADERS && OffsetOf(hs, |hs|) <= l.len
    ensures var m := l.(headers := Entries(l, hs, |hs|));
            var r := IdentifyHeader(m, Payload, OffsetOf(hs, |hs|), l.len - OffsetOf(hs, |hs|));
            l.(headers := WithPayload(l, hs)) == if r.Some? then r.value else m
  {
    if |hs| > 0 { EntriesAt(l, hs, |hs|, |hs| - 1); }
  }

  /** The first stream that matches. */
  ghost predicate FirstMatch(buf: seq<byte>, l: Layout, streams: seq<seq<Descriptor>>, i: nat)
    requires forall i :: 0 <= i < |streams| ==> StreamFits(streams[i])
  {
    i < |streams| && StreamMatches(buf, l, streams[i]) &&
    forall j :: 0 <= j < i ==> !StreamMatches(buf, l, streams[j])
  }

  /** parsetree_identify: the first stream in order that matches, whatever failed before it. */
  method IdentifyStream(p: Packet, streams: seq<seq<Descriptor>>) returns (which: Option<nat>)
    requires p.Ok() && p.Where() == Layout(p.start, p.len, 0, []) && p.start + p.len <= BUF_LEN
    requires forall i :: 0 <= i < |streams| ==> StreamFits(streams[i])
    modifies p`headerCount, p`scratchLen, p.table
    ensures p.Ok()
    ensures which.None? ==> p.Where() == old(p.Where())
    ensures which.None? ==> forall j :: 0 <= j < |streams| ==> !StreamMatches(p.buf[..], old(p.Where()), streams[j])
    ensures which.Some? ==> FirstMatch(p.buf[..], old(p.Where()), streams, which.value)
    ensures which.Some? ==> OffsetOf(streams[which.value], |streams[which.value]|) <= p.len
    ensures which.Some? ==>
              p.Where() == old(p.Where()).(headers := WithPayload(old(p.Where()), streams[which.value]))
  {
    ghost var l := p.Where();
    for i := 0 to |streams|
      invariant p.Ok() && p.Where() == l
      invariant forall j :: 0 <= j < i ==> !StreamMatches(p.buf[..], l, streams[j])
    {
      var full, offset := TryStream(p, streams[i]);
      if full {
        EnterPayload(l, streams[i]);
        var ok := p.Identify(Payload, offset, p.len - offset);
        return Some(i);
      }
    }
    return None;
  }

  /** For a stream of fewer than 20 headers, none of them empty: the entered headers and the payload
      tile the received bytes, so the wire image is what was received. */
  lemma {:induction false} EntriesTile(buf: seq<byte>, l: Layout, hs: seq<Descriptor>, n: nat)
    requires n <= |hs| && l.start + l.len <= |buf| && OffsetOf(hs, n) <= l.len
    ensures InBuffer(buf, Entries(l, hs, n)) && Image(buf, Entries(l, hs, n)) == buf[l.start..l.start + OffsetOf(hs, n)]
    decreases n
  {
    if n > 0 {
      EntriesTile(buf, l, hs, n - 1);
      TileNext(buf, Entries(l, hs, n - 1), EntryOf(l, hs, n - 1), l.start);
    }
  }

  lemma {:induction false} TileNext(buf: seq<byte>, es: seq<Header>, e: Header, from: nat)
    requires InBuffer(buf, es) && from <= e.start && e.start + e.len <= |buf| && Image(buf, es) == buf[from..e.start]
    ensures InBuffer(buf, es + [e]) && Image(buf, es + [e]) == buf[from..e.start + e.len]
  {
    ImageAppend(buf, es, e);
    Adjacent(buf, from, e.start, e.start + e.len);
  }

  lemma {:induction false} ImageAppend(buf: seq<byte>, es: seq<Header>, e: Header)
    requires InBuffer(buf, es) && e.start + e.len <= |buf|
    ensures InBuffer(buf, es + [e]) && Image(buf, es + [e]) == Image(buf, es) + buf[e.start..e.start + e.len]
  {
    assert (es + [e])[..|es|] == es;
  }

  lemma {:induction false} Adjacent(buf: seq<byte>, a: nat, b: nat, c: nat)
    requires a <= b <= c <= |buf|
    ensures buf[a..b] + buf[b..c] == buf[a..c]
  {
  }

  lemma {:induction false} IdentifiedTiles(buf: seq<byte>, l: Layout, hs: seq<Descriptor>)
    requires l.start + l.len <= |buf| && OffsetOf(hs, |hs|) <= l.len && |hs| < MAX_HEADERS
    requires forall i :: 0 <= i < |hs| ==> ByteLength(hs[i].proto) > 0
    ensures InBuffer(buf, WithPayload(l, hs)) && Image(buf, WithPayload(l, hs)) == buf[l.start..l.start + l.len]
  {
    EntriesTile(buf, l, hs, |hs|);
    TileNext(buf, Entries(l, hs, |hs|), PayloadOf(l, OffsetOf(hs, |hs|)), l.start);
  }

  lemma {:induction false} IdentifiedIsPlaced(l: Layout, hs: seq<Descriptor>)
    requires l.start + l.len <= BUF_LEN && l.scratchLen == 0 && OffsetOf(hs, |hs|) <= l.len && |hs| < MAX_HEADERS
    requires forall i :: 0 <= i < |hs| ==> ByteLength(hs[i].proto) > 0
    ensures WellPlaced(l.(headers := WithPayload(l, hs)))
  {
    var es := WithPayload(l, hs);
    var m := l.(headers := es);
    forall i | 0 <= i < |es|
      ensures Inside(m, es[i])
    {
      if i < |hs| {
        EntriesAt(l, hs, |hs|, i);
        OffsetGrows(hs, i + 1, |hs|);
      }
    }
    forall i, j | 0 <= i < j < |es|
      ensures Disjoint(es[i], es[j])
    {
      EntriesAt(l, hs, |hs|, i);
      if j < |hs| { EntriesAt(l, hs, |hs|, j); }
      OffsetGrows(hs, i + 1, j);
    }
  }

  /** A packet as received, the space before it cleared, and identified: whatever is then added, deleted and
      edited acts on the list of its header strings. */
  lemma {:induction false} IdentifiedRefines(buf: seq<byte>, l: Layout, hs: seq<Descriptor>, ops: seq<Op>)
    requires |buf| == BUF_LEN && l.start + l.len <= BUF_LEN && l.scratchLen == 0
    requires forall k :: 0 <= k < l.start ==> buf[k] == 0
    requires OffsetOf(hs, |hs|) <= l.len && |hs| < MAX_HEADERS &&
             forall i :: 0 <= i < |hs| ==> ByteLength(hs[i].proto) > 0
    ensures var p := Pkt(l.(headers := WithPayload(l, hs)), buf);
            Valid(p) && Valid(Run(p, ops)) && View(Run(p, ops)) == ReferenceRun(View(p), Effective(p, ops))
  {
    IdentifiedIsPlaced(l, hs);
    RunRefinesList(Pkt(l.(headers := WithPayload(l, hs)), buf), ops);
  }

  /** A received packet of l.len bytes, edited: serialising it stays in the buffer exactly when what was added less
      what was deleted fits behind what was received. */
  lemma {:induction false} SerializesExactly(buf: seq<byte>, l: Layout, hs: seq<Descriptor>, ops: seq<Op>)
    requires |buf| == BUF_LEN && l.start + l.len <= BUF_LEN && OffsetOf(hs, |hs|) <= l.len && |hs| < MAX_HEADERS
    requires forall i :: 0 <= i < |hs| ==> ByteLength(hs[i].proto) > 0
    ensures var p := Pkt(l.(headers := WithPayload(l, hs)), buf);
            START_OFFSET + TotalLength(Run(p, ops).layout.headers) <= BUF_LEN <==>
            l.len + Growth(p, ops) <= BUF_LEN - START_OFFSET
  {
    var es := WithPayload(l, hs);
    IdentifiedTiles(buf, l, hs);
    ImageLength(buf, es);
    RunLength(Pkt(l.(headers := es), buf), ops);
  }

  /** A packet that fills the receive space, with one tag added before it. */
  lemma {:induction false} OneTagOverruns(buf: seq<byte>, hs: seq<Descriptor>)
    requires |buf| == BUF_LEN && hs == [Descriptor(Eth, [])]
    ensures var l := Layout(START_OFFSET, BUF_LEN - START_OFFSET, 0, []);
            OffsetOf(hs, |hs|) <= l.len &&
            var p := Pkt(l.(headers := WithPayload(l, hs)), buf);
            Allowed(p, Add(1, RTag, 6)) &&
            START_OFFSET + TotalLength(Run(p, [Add(1, RTag, 6)]).layout.headers) > BUF_LEN
  {
    var l := Layout(START_OFFSET, BUF_LEN - START_OFFSET, 0, []);
    assert OffsetOf(hs, 1) == OffsetOf(hs, 0) + 14;
    var p, ops := Pkt(l.(headers := WithPayload(l, hs)), buf), [Add(1, RTag, 6)];
    SerializesExactly(buf, l, hs, ops);
    assert ops[1..] == [];
  }
}
