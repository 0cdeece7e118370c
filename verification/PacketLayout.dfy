/** Where the headers of a packet lie (packet.c): entering, adding and deleting them, the image they make on
    the wire, and what a run of such operations does to that image. */
module PacketLayout {
  import opened Basics
  import opened Bits
  import opened Protocols

  const BUF_LEN: nat := 10000
  const START_OFFSET: nat := 1024
  const MAX_HEADERS: nat := 20

  datatype Header = Header(proto: Proto, start: nat, len: nat)

  /** Receive space [start, start + len), scratch space [0, scratchLen) in use, and the header list. */
  datatype Layout = Layout(start: nat, len: nat, scratchLen: nat, headers: seq<Header>)

  // ----- operations -----

  function IdentifyHeader(l: Layout, proto: Proto, offset: nat, len: nat): (r: Option<Layout>) {
    if |l.headers| == MAX_HEADERS then None
    else if |l.headers| > 0 && l.headers[|l.headers| - 1].start >= l.start + offset then None
    else if offset + len > l.len then None
    else Some(l.(headers := l.headers + [Header(proto, l.start + offset, len)]))
  }

  function AddHeader(l: Layout, idx: nat, proto: Proto, len: nat): (r: Option<Layout>) {
    if |l.headers| == MAX_HEADERS || idx > |l.headers| || l.scratchLen + len >= l.start then None
    else Some(l.(scratchLen := l.scratchLen + len,
                 headers := l.headers[..idx] + [Header(proto, l.scratchLen, len)] + l.headers[idx..]))
  }

  function DelHeader(l: Layout, idx: nat): (r: Layout) {
    if idx >= |l.headers| then l else l.(headers := l.headers[..idx] + l.headers[idx + 1..])
  }

  // ----- placement -----

  predicate Inside(l: Layout, h: Header) {
    h.start + h.len <= l.scratchLen || (l.start <= h.start && h.start + h.len <= l.start + l.len)
  }

  predicate Disjoint(a: Header, b: Header) {
    a.len == 0 || b.len == 0 || a.start + a.len <= b.start || b.start + b.len <= a.start
  }

  /** Headers lie in the two spaces and do not overlap. */
  ghost predicate WellPlaced(l: Layout) {
    |l.headers| <= MAX_HEADERS && l.scratchLen <= l.start && l.start + l.len <= BUF_LEN &&
    (forall i :: 0 <= i < |l.headers| ==> Inside(l, l.headers[i])) &&
    (forall i, j :: 0 <= i < j < |l.headers| ==> Disjoint(l.headers[i], l.headers[j]))
  }

  lemma {:induction false} AddKeepsPlaced(l: Layout, idx: nat, proto: Proto, len: nat)
    requires WellPlaced(l) && AddHeader(l, idx, proto, len).Some?
    ensures WellPlaced(AddHeader(l, idx, proto, len).value)
  {
    var h := Header(proto, l.scratchLen, len);
    var m := AddHeader(l, idx, proto, len).value;
    forall i, j | 0 <= i < j < |m.headers|
      ensures Disjoint(m.headers[i], m.headers[j])
    {
      var a, b := m.headers[i], m.headers[j];
      assert a == (if i < idx then l.headers[i] else if i == idx then h else l.headers[i - 1]);
      assert b == (if j < idx then l.headers[j] else if j == idx then h else l.headers[j - 1]);
      if i != idx && j != idx {
        assert Disjoint(l.headers[if i < idx then i else i - 1], l.headers[if j < idx then j else j - 1]);
      }
    }
  }

  lemma {:induction false} DelKeepsPlaced(l: Layout, idx: nat)
    requires WellPlaced(l)
    ensures WellPlaced(DelHeader(l, idx))
  {
    var m := DelHeader(l, idx);
    if idx < |l.headers| {
      forall i, j | 0 <= i < j < |m.headers|
        ensures Disjoint(m.headers[i], m.headers[j])
      {
        assert Disjoint(l.headers[if i < idx then i else i + 1], l.headers[if j < idx then j else j + 1]);
      }
    }
  }

  // ----- wire image -----

  function Image(buf: seq<byte>, hs: seq<Header>): (w: seq<byte>)
    requires InBuffer(buf, hs)
  {
    if hs == [] then []
    else Image(buf, hs[..|hs| - 1]) + buf[hs[|hs| - 1].start..hs[|hs| - 1].start + hs[|hs| - 1].len]
  }

  // ----- a packet against a list of byte strings -----

  datatype Pkt = Pkt(layout: Layout, buf: seq<byte>)

  /** What the actions do to a packet: insert a header, remove one, set a byte of one. */
  datatype Op = Add(idx: nat, proto: Proto, len: nat) | Del(idx: nat) | Edit(idx: nat, at: nat, value: byte)

  predicate Allowed(p: Pkt, op: Op) {
    match op
    case Add(idx, proto, len) => AddHeader(p.layout, idx, proto, len).Some?
    case Del(idx) => idx < |p.layout.headers|
    case Edit(idx, at, value) => idx < |p.layout.headers| && at < p.layout.headers[idx].len
  }

  /** The packet is well placed in a full buffer whose unused scratch space is zero. */
  ghost predicate Valid(p: Pkt) {
    |p.buf| == BUF_LEN && WellPlaced(p.layout) &&
    forall k :: p.layout.scratchLen <= k < p.layout.start ==> p.buf[k] == 0
  }

  function Step(p: Pkt, op: Op): (q: Pkt)
    requires |p.buf| == BUF_LEN
    ensures |q.buf| == BUF_LEN
  {
    match op
    case Add(idx, proto, len) =>
      var l := AddHeader(p.layout, idx, proto, len);
      if l.Some? then p.(layout := l.value) else p
    case Del(idx) => p.(layout := DelHeader(p.layout, idx))
    case Edit(idx, at, value) =>
      if Allowed(p, op) && p.layout.headers[idx].start + at < BUF_LEN
      then p.(buf := p.buf[p.layout.headers[idx].start + at := value]) else p
  }

  datatype Item = Item(proto: Proto, bytes: seq<byte>)

  predicate InBuffer(buf: seq<byte>, hs: seq<Header>) {
    forall i :: 0 <= i < |hs| ==> hs[i].start + hs[i].len <= |buf|
  }

  function ItemOf(buf: seq<byte>, h: Header): Item
    requires h.start + h.len <= |buf|
  {
    Item(h.proto, buf[h.start..h.start + h.len])
  }

  function Items(buf: seq<byte>, hs: seq<Header>): (v: seq<Item>)
    requires InBuffer(buf, hs)
    ensures |v| == |hs| && forall i :: 0 <= i < |hs| ==> v[i] == ItemOf(buf, hs[i])
  {
    if hs == [] then [] else Items(buf, hs[..|hs| - 1]) + [ItemOf(buf, hs[|hs| - 1])]
  }

  /** The packet as a list of byte strings. */
  ghost function View(p: Pkt): (v: seq<Item>)
    requires Valid(p)
  {
    PlacedInBuffer(p);
    Items(p.buf, p.layout.headers)
  }

  lemma {:induction false} PlacedInBuffer(p: Pkt)
    requires Valid(p)
    ensures InBuffer(p.buf, p.layout.headers)
  {
    forall i | 0 <= i < |p.layout.headers|
      ensures p.layout.headers[i].start + p.layout.headers[i].len <= |p.buf|
    {
      assert Inside(p.layout, p.layout.headers[i]);
    }
  }

  lemma {:induction false} ItemsInsert(buf: seq<byte>, hs: seq<Header>, idx: nat, h: Header)
    requires InBuffer(buf, hs) && idx <= |hs| && h.start + h.len <= |buf|
    ensures InBuffer(buf, hs[..idx] + [h] + hs[idx..])
    ensures Items(buf, hs[..idx] + [h] + hs[idx..]) == Items(buf, hs)[..idx] + [ItemOf(buf, h)] + Items(buf, hs)[idx..]
  {
  }

  lemma {:induction false} ItemsRemove(buf: seq<byte>, hs: seq<Header>, idx: nat)
    requires InBuffer(buf, hs) && idx < |hs|
    ensures InBuffer(buf, hs[..idx] + hs[idx + 1..])
    ensures Items(buf, hs[..idx] + hs[idx + 1..]) == Items(buf, hs)[..idx] + Items(buf, hs)[idx + 1..]
  {
  }

  function ZeroBytes(n: nat): seq<byte> { seq(n, i => 0) }

  /** The reference: list insertion of zeros, list removal, change of one byte of one string. */
  function Reference(v: seq<Item>, op: Op): (w: seq<Item>) {
    match op
    case Add(idx, proto, len) => if idx <= |v| then v[..idx] + [Item(proto, ZeroBytes(len))] + v[idx..] else v
    case Del(idx) => if idx < |v| then v[..idx] + v[idx + 1..] else v
    case Edit(idx, at, value) =>
      if idx < |v| && at < |v[idx].bytes| then v[idx := Item(v[idx].proto, v[idx].bytes[at := value])] else v
  }

  lemma {:induction false} AddRefines(p: Pkt, idx: nat, proto: Proto, len: nat)
    requires Valid(p) && Allowed(p, Add(idx, proto, len))
    ensures Valid(Step(p, Add(idx, proto, len)))
    ensures View(Step(p, Add(idx, proto, len))) == Reference(View(p), Add(idx, proto, len))
  {
    AddKeepsPlaced(p.layout, idx, proto, len);
    PlacedInBuffer(p);
    var h := Header(proto, p.layout.scratchLen, len);
    assert ItemOf(p.buf, h).bytes == ZeroBytes(len);
    ItemsInsert(p.buf, p.layout.headers, idx, h);
  }

  lemma {:induction false} DelRefines(p: Pkt, idx: nat)
    requires Valid(p) && Allowed(p, Del(idx))
    ensures Valid(Step(p, Del(idx)))
    ensures View(Step(p, Del(idx))) == Reference(View(p), Del(idx))
  {
    DelKeepsPlaced(p.layout, idx);
    PlacedInBuffer(p);
    ItemsRemove(p.buf, p.layout.headers, idx);
  }

  lemma {:induction false} EditItem(p: Pkt, idx: nat, at: nat, value: byte, i: nat)
    requires Valid(p) && Allowed(p, Edit(idx, at, value)) && i < |p.layout.headers|
    requires InBuffer(p.buf, p.layout.headers)
    ensures var h, buf := p.layout.headers[i], Step(p, Edit(idx, at, value)).buf;
            |buf| == |p.buf| &&
            buf[h.start..h.start + h.len] ==
              if i == idx then p.buf[h.start..h.start + h.len][at := value] else p.buf[h.start..h.start + h.len]
  {
    var hs := p.layout.headers;
    if i != idx { assert if i < idx then Disjoint(hs[i], hs[idx]) else Disjoint(hs[idx], hs[i]); }
    SliceAfterWrite(p.buf, hs[idx].start + at, value, hs[i].start, hs[i].start + hs[i].len);
  }

  lemma {:induction false} EditRefines(p: Pkt, idx: nat, at: nat, value: byte)
    requires Valid(p) && Allowed(p, Edit(idx, at, value))
    ensures Valid(Step(p, Edit(idx, at, value)))
    ensures View(Step(p, Edit(idx, at, value))) == Reference(View(p), Edit(idx, at, value))
  {
    var q, w := Step(p, Edit(idx, at, value)), Reference(View(p), Edit(idx, at, value));
    PlacedInBuffer(p);
    forall i | 0 <= i < |w|
      ensures View(q)[i] == w[i]
    {
      EditItem(p, idx, at, value, i);
    }
  }

  lemma {:induction false} SliceAfterWrite(buf: seq<byte>, pos: nat, value: byte, a: nat, b: nat)
    requires pos < |buf| && a <= b <= |buf|
    ensures buf[pos := value][a..b] == if a <= pos < b then buf[a..b][pos - a := value] else buf[a..b]
  {
  }

  function Run(p: Pkt, ops: seq<Op>): (q: Pkt)
    requires |p.buf| == BUF_LEN
    ensures |q.buf| == BUF_LEN
    decreases |ops|
  {
    if ops == [] then p else Run(Step(p, ops[0]), ops[1..])
  }

  function ReferenceRun(v: seq<Item>, ops: seq<Op>): (w: seq<Item>)
    decreases |ops|
  {
    if ops == [] then v else ReferenceRun(Reference(v, ops[0]), ops[1..])
  }

  /** The operations of a run that the packet has room and headers for; the others change nothing. */
  function Effective(p: Pkt, ops: seq<Op>): (eff: seq<Op>)
    requires |p.buf| == BUF_LEN
    decreases |ops|
  {
    if ops == [] then []
    else (if Allowed(p, ops[0]) then [ops[0]] else []) + Effective(Step(p, ops[0]), ops[1..])
  }

  /** Any sequence of additions, deletions and edits keeps the headers disjoint and in bounds, and the
      packet is exactly the list of byte strings that the same operations make of the original list. */
  lemma {:induction false} RunRefinesList(p: Pkt, ops: seq<Op>)
    requires Valid(p)
    ensures Valid(Run(p, ops)) && View(Run(p, ops)) == ReferenceRun(View(p), Effective(p, ops))
    decreases |ops|
  {
    if ops != [] {
      var op, q := ops[0], Step(p, ops[0]);
      StepRefines(p, op);
      RunRefinesList(q, ops[1..]);
      if Allowed(p, op) {
        var eff := Effective(q, ops[1..]);
        assert ([op] + eff)[1..] == eff;
      } else {
        assert [] + Effective(q, ops[1..]) == Effective(q, ops[1..]);
      }
    }
  }

  lemma {:induction false} StepRefines(p: Pkt, op: Op)
    requires Valid(p)
    ensures Valid(Step(p, op))
    ensures View(Step(p, op)) == if Allowed(p, op) then Reference(View(p), op) else View(p)
  {
    if Allowed(p, op) {
      match op
      case Add(idx, proto, len) => AddRefines(p, idx, proto, len);
      case Del(idx) => DelRefines(p, idx);
      case Edit(idx, at, value) => EditRefines(p, idx, at, value);
    } else {
      assert Step(p, op) == p;
    }
  }

  /** The wire image is the strings of the list, one after the other. */
  function Flatten(v: seq<Item>): (w: seq<byte>) {
    if v == [] then [] else Flatten(v[..|v| - 1]) + v[|v| - 1].bytes
  }

  lemma {:induction false} ImageIsFlat(buf: seq<byte>, hs: seq<Header>)
    requires InBuffer(buf, hs)
    ensures Image(buf, hs) == Flatten(Items(buf, hs))
  {
    if hs != [] { ImageIsFlat(buf, hs[..|hs| - 1]); }
  }

  // ----- how long the image is -----

  function TotalLength(hs: seq<Header>): nat {
    if hs == [] then 0 else TotalLength(hs[..|hs| - 1]) + hs[|hs| - 1].len
  }

  lemma {:induction false} ImageLength(buf: seq<byte>, hs: seq<Header>)
    requires InBuffer(buf, hs)
    ensures |Image(buf, hs)| == TotalLength(hs)
    decreases |hs|
  {
    if hs != [] { ImageLength(buf, hs[..|hs| - 1]); }
  }

  lemma {:induction false} TotalConcat(a: seq<Header>, b: seq<Header>)
    ensures TotalLength(a + b) == TotalLength(a) + TotalLength(b)
    decreases |b|
  {
    if b == [] {
      assert a + b == a;
    } else {
      TotalConcat(a, b[..|b| - 1]);
      assert (a + b)[..|a + b| - 1] == a + b[..|b| - 1];
    }
  }

  lemma {:induction false} TotalSplit(hs: seq<Header>, i: nat, h: Header)
    requires i <= |hs|
    ensures TotalLength(hs[..i] + [h] + hs[i..]) == TotalLength(hs) + h.len
  {
    TotalConcat(hs[..i], hs[i..]);
    TotalConcat(hs[..i], [h]);
    TotalConcat(hs[..i] + [h], hs[i..]);
    assert hs == hs[..i] + hs[i..] && [h][..0] == [];
  }

  /** By how much an operation changes the length of the image. */
  function StepGrowth(p: Pkt, op: Op): int {
    if !Allowed(p, op) then 0 else
    match op
    case Add(_, _, len) => len
    case Del(idx) => -1 * p.layout.headers[idx].len
    case Edit(_, _, _) => 0
  }

  function Growth(p: Pkt, ops: seq<Op>): int
    requires |p.buf| == BUF_LEN
    decreases |ops|
  {
    if ops == [] then 0 else StepGrowth(p, ops[0]) + Growth(Step(p, ops[0]), ops[1..])
  }

  lemma {:induction false} StepLength(p: Pkt, op: Op)
    requires |p.buf| == BUF_LEN
    ensures TotalLength(Step(p, op).layout.headers) == TotalLength(p.layout.headers) + StepGrowth(p, op)
  {
    var hs := p.layout.headers;
    if Allowed(p, op) {
      match op
      case Add(idx, proto, len) => TotalSplit(hs, idx, Header(proto, p.layout.scratchLen, len));
      case Del(idx) =>
        var rest := hs[..idx] + hs[idx + 1..];
        TotalSplit(rest, idx, hs[idx]);
        assert rest[..idx] + [hs[idx]] + rest[idx..] == hs;
      case Edit(_, _, _) =>
    }
  }

  /** After any run the image is as long as before, with what was added and without what was deleted. */
  lemma {:induction false} RunLength(p: Pkt, ops: seq<Op>)
    requires |p.buf| == BUF_LEN
    ensures TotalLength(Run(p, ops).layout.headers) == TotalLength(p.layout.headers) + Growth(p, ops)
    decreases |ops|
  {
    if ops != [] {
      StepLength(p, ops[0]);
      RunLength(Step(p, ops[0]), ops[1..]);
    }
  }
}
