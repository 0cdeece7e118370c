/** The next-header values of the header list are the bits of the packet's next-header fields (header.c, action.c). */
module WireChain {
  import opened Basics
  import opened Bits
  import opened Protocols
  import opened FieldAccess
  import opened FieldConstants
  import opened Actions
  import opened NextHeaders
  import opened Compiler
  import InetChecksum
  import PacketChecksum
  import PacketLayout
  import Simulation

  type Header = PacketLayout.Header
  type Bytes = seq<byte>

  // ----- where the field is -----

  /** Offset and width, in bits, of the next-header field. */
  function NextField(p: Proto): Field {
    match p
    case Eth => Field(96, 16)
    case SVlan => Field(16, 16) case CVlan => Field(16, 16)
    case RTag => Field(32, 16) case TTag => Field(32, 16)
    case IPv4 => Field(72, 8)
    case IPv6 => Field(48, 8)
    case _ => Field(0, 0)
  }

  function NextAt(h: Header): nat { 8 * h.start + NextField(h.proto).offset }
  function NextBits(h: Header): nat { NextField(h.proto).count }

  predicate Fits(buf: Bytes, h: Header) {
    h.start + h.len <= |buf| && (FamilyOf(h.proto) != NoFamily ==> h.len >= ByteLength(h.proto))
  }

  lemma {:induction false} FieldInside(buf: Bytes, h: Header)
    requires Fits(buf, h) && FamilyOf(h.proto) != NoFamily
    ensures 8 * h.start <= NextAt(h) && NextAt(h) + NextBits(h) <= 8 * (h.start + h.len) <= 8 * |buf|
  {
  }

  /** The value on the wire. */
  function NextOnWire(buf: Bytes, h: Header): nat
    requires Fits(buf, h) && FamilyOf(h.proto) != NoFamily
  {
    FieldInside(buf, h);
    FieldNumber(buf, NextAt(h), NextBits(h))
  }

  predicate ShownAt(buf: Bytes, h: Header, it: Item) {
    h.proto == it.proto && Fits(buf, h) && (FamilyOf(h.proto) != NoFamily ==> NextOnWire(buf, h) == it.next)
  }

  ghost predicate Shown(buf: Bytes, hs: seq<Header>, items: seq<Item>) {
    |hs| == |items| && forall i :: 0 <= i < |hs| ==> ShownAt(buf, hs[i], items[i])
  }

  ghost predicate Apart(hs: seq<Header>) {
    forall i, j :: 0 <= i < |hs| && 0 <= j < |hs| && i != j ==> PacketLayout.Disjoint(hs[i], hs[j])
  }

  // ----- numbers and bits -----

  lemma {:induction false} SameNumber(a: Bytes, at: nat, b: Bytes, bt: nat, count: nat)
    requires at + count <= 8 * |a| && bt + count <= 8 * |b|
    requires forall k :: at <= k < at + count ==> (Bit(a, k) <==> Bit(b, bt + (k - at)))
    ensures FieldNumber(a, at, count) == FieldNumber(b, bt, count)
    decreases count
  {
    if count > 0 {
      SameNumber(a, at, b, bt, count - 1);
      assert Bit(a, at + count - 1) <==> Bit(b, bt + count - 1);
    }
  }

  lemma {:induction false} ZeroNumber(a: Bytes, at: nat, count: nat)
    requires at + count <= 8 * |a| && forall k :: at <= k < at + count ==> !Bit(a, k)
    ensures FieldNumber(a, at, count) == 0
    decreases count
  {
    if count > 0 { ZeroNumber(a, at, count - 1); }
  }

  /** A write elsewhere leaves a field alone. */
  lemma {:induction false} FieldKept(before: Bytes, after: Bytes, at: nat, v: Value, bt: nat, count: nat)
    requires Written(before, after, at, v) && bt + count <= 8 * |before|
    requires v.count == 0 || bt + count <= at || at + v.count <= bt
    ensures FieldNumber(after, bt, count) == FieldNumber(before, bt, count)
  {
    forall k | bt <= k < bt + count
      ensures Bit(after, k) <==> Bit(before, bt + (k - bt))
    {
      assert bt + (k - bt) == k;
    }
    SameNumber(after, bt, before, bt, count);
  }

  lemma {:induction false} FieldCopied(before: Bytes, after: Bytes, at: nat, v: Value, bt: nat)
    requires Written(before, after, at, v) && at + v.count <= 8 * |before| && bt + v.count <= 8 * |before|
    requires SameBits(before, bt, v)
    ensures FieldNumber(after, at, v.count) == FieldNumber(before, bt, v.count)
  {
    forall k | at <= k < at + v.count
      ensures Bit(after, k) <==> Bit(before, bt + (k - at))
    {
      var j := bt + (k - at);
      assert j - bt == k - at;
      assert Bit(before, j) <==> Bit(v.bytes, v.offset + (j - bt));
    }
    SameNumber(after, at, before, bt, v.count);
  }

  // ----- one assignment -----

  /** What a writer is called with. */
  datatype Write = Write(at: nat, v: Value)

  /** The write lies in the header. */
  predicate Inside(h: Header, w: Write) { 8 * h.start <= w.at && w.at + w.v.count <= 8 * (h.start + h.len) }

  ghost predicate SetsNumber(h: Header, w: Write, code: nat) {
    w.at == NextAt(h) && w.v.count == NextBits(h) && IsConstant(w.v, code) && code < Pow2(w.v.count)
  }

  ghost predicate Copies(before: Bytes, h: Header, src: Header, w: Write)
    requires Fits(before, src) && FamilyOf(src.proto) != NoFamily
  {
    FieldInside(before, src);
    w.at == NextAt(h) && w.v.count == NextBits(h) == NextBits(src) && w.v.offset + w.v.count <= 8 * |w.v.bytes| &&
    SameBits(before, NextAt(src), w.v)
  }

  ghost predicate Clears(h: Header, w: Write) {
    w.at == 8 * h.start && w.v.offset + w.v.count <= 8 * |w.v.bytes| &&
    (FamilyOf(h.proto) != NoFamily ==>
       NextField(h.proto).offset + NextBits(h) <= w.v.count &&
       forall k :: 0 <= k - w.v.offset - NextField(h.proto).offset < NextBits(h) ==> !Bit(w.v.bytes, k))
  }

  predicate Beside(h: Header, w: Write) {
    FamilyOf(h.proto) == NoFamily || w.at + w.v.count <= NextAt(h) || NextAt(h) + NextBits(h) <= w.at
  }

  predicate HasNext(buf: Bytes, hs: seq<Header>, i: nat) {
    i < |hs| && Fits(buf, hs[i]) && FamilyOf(hs[i].proto) != NoFamily
  }

  /** The bytes change as the assignment says. */
  ghost predicate Wrote(before: Bytes, after: Bytes, hs: seq<Header>, a: Assign, w: Write) {
    a.dst.idx < |hs| && Inside(hs[a.dst.idx], w) && Written(before, after, w.at, w.v) &&
    var h := hs[a.dst.idx];
    match a
    case SetDefault(_) => Clears(h, w)
    case Write(_, Other, _, _) => Beside(h, w)
    case Write(_, Next, Value(code), _) => HasNext(before, hs, a.dst.idx) && SetsNumber(h, w, code)
    case Write(_, Next, FieldOf(src), _) =>
      HasNext(before, hs, a.dst.idx) && HasNext(before, hs, src.idx) && Copies(before, h, hs[src.idx], w)
  }

  lemma {:induction false} OthersKept(before: Bytes, after: Bytes, hs: seq<Header>, w: Write, d: nat, i: nat, it: Item)
    requires Apart(hs) && d < |hs| && i < |hs| && i != d && Inside(hs[d], w) && Written(before, after, w.at, w.v)
    requires ShownAt(before, hs[i], it)
    ensures ShownAt(after, hs[i], it)
  {
    assert PacketLayout.Disjoint(hs[i], hs[d]);
    if FamilyOf(hs[i].proto) != NoFamily {
      FieldInside(before, hs[i]);
      FieldKept(before, after, w.at, w.v, NextAt(hs[i]), NextBits(hs[i]));
    }
  }

  lemma {:induction false} NumberSet(before: Bytes, after: Bytes, h: Header, w: Write, code: nat)
    requires Fits(before, h) && FamilyOf(h.proto) != NoFamily
    requires Written(before, after, w.at, w.v) && SetsNumber(h, w, code)
    ensures Fits(after, h) && NextOnWire(after, h) == code
  {
    FieldInside(before, h);
    ConstantReadsBack(before, after, w.at, w.v, code);
  }

  lemma {:induction false} NumberCopied(before: Bytes, after: Bytes, h: Header, src: Header, w: Write)
    requires Fits(before, h) && FamilyOf(h.proto) != NoFamily && Fits(before, src) && FamilyOf(src.proto) != NoFamily
    requires Written(before, after, w.at, w.v) && Copies(before, h, src, w)
    ensures Fits(after, h) && NextOnWire(after, h) == NextOnWire(before, src)
  {
    FieldInside(before, h);
    FieldInside(before, src);
    FieldCopied(before, after, w.at, w.v, NextAt(src));
  }

  lemma {:induction false} NumberCleared(before: Bytes, after: Bytes, h: Header, w: Write)
    requires Fits(before, h) && FamilyOf(h.proto) != NoFamily && Written(before, after, w.at, w.v) && Clears(h, w)
    ensures Fits(after, h) && NextOnWire(after, h) == 0
  {
    FieldInside(before, h);
    forall k | NextAt(h) <= k < NextAt(h) + NextBits(h)
      ensures !Bit(after, k)
    {
      var j := w.v.offset + (k - w.at);
      assert j - w.v.offset - NextField(h.proto).offset == k - NextAt(h);
      assert !Bit(w.v.bytes, j);
    }
    ZeroNumber(after, NextAt(h), NextBits(h));
  }

  /** The header that the assignment writes to. */
  lemma {:induction false} TargetShown(before: Bytes, after: Bytes, hs: seq<Header>, items: seq<Item>,
                                       a: Assign, w: Write)
    requires Shown(before, hs, items) && Wrote(before, after, hs, a, w)
    ensures ShownAt(after, hs[a.dst.idx], Assigned(items, a)[a.dst.idx])
  {
    var d := a.dst.idx;
    var h := hs[d];
    assert ShownAt(before, h, items[d]);
    match a
    case SetDefault(_) => if FamilyOf(h.proto) != NoFamily { NumberCleared(before, after, h, w); }
    case Write(_, Other, _, _) =>
      if FamilyOf(h.proto) != NoFamily {
        FieldInside(before, h);
        FieldKept(before, after, w.at, w.v, NextAt(h), NextBits(h));
      }
    case Write(_, Next, Value(code), _) => NumberSet(before, after, h, w, code);
    case Write(_, Next, FieldOf(src), _) =>
      assert ShownAt(before, hs[src.idx], items[src.idx]);
      NumberCopied(before, after, h, hs[src.idx], w);
  }

  lemma {:induction false} AssignShown(before: Bytes, after: Bytes, hs: seq<Header>, items: seq<Item>,
                                       a: Assign, w: Write)
    requires Shown(before, hs, items) && Apart(hs) && Wrote(before, after, hs, a, w)
    ensures Shown(after, hs, Assigned(items, a))
  {
    forall i | 0 <= i < |hs|
      ensures ShownAt(after, hs[i], Assigned(items, a)[i])
    {
      assert ShownAt(before, hs[i], items[i]);
      if i == a.dst.idx {
        TargetShown(before, after, hs, items, a, w);
      } else {
        OthersKept(before, after, hs, w, a.dst.idx, i, items[i]);
      }
    }
  }

  // ----- one action -----

  ghost predicate Edited(before: Bytes, after: Bytes, hs: seq<Header>, assigns: seq<Assign>)
    decreases |assigns|
  {
    if assigns == [] then before == after
    else exists mid, w :: Wrote(before, mid, hs, assigns[0], w) && Edited(mid, after, hs, assigns[1..])
  }

  lemma {:induction false} EditShown(before: Bytes, after: Bytes, hs: seq<Header>, items: seq<Item>,
                                     assigns: seq<Assign>)
    requires Shown(before, hs, items) && Apart(hs) && Edited(before, after, hs, assigns)
    ensures Shown(after, hs, AssignedAll(items, assigns))
    decreases |assigns|
  {
    if assigns != [] {
      var mid, w :| Wrote(before, mid, hs, assigns[0], w) && Edited(mid, after, hs, assigns[1..]);
      AssignShown(before, mid, hs, items, assigns[0], w);
      EditShown(mid, after, hs, Assigned(items, assigns[0]), assigns[1..]);
    }
  }

  /** Bytes and header table of a packet. */
  datatype Wire = Wire(buf: Bytes, hs: seq<Header>)

  /** The bytes of a header that an action on one of its fields may write. */
  predicate Touches(kind: Kind, proto: Proto, at: int) {
    match kind
    case Checksum => HasChecksum(proto) && 0 <= at - PacketChecksum.FieldOffset(proto) < 2
    case WriteSeq => if proto == IPv6 then 36 <= at < 40 else HasSeq(proto) && 0 <= at < 4
    case WriteTstamp => HasTstamp(proto) && 0 <= at < 4
    case TtlReduce =>
      if proto == IPv4 then at == 8 || 10 <= at < 12 else if proto == IPv6 then at == 7 else proto == Mpls && at == 3
    case SetLength => if proto == IPv4 then 2 <= at < 4 else (proto == IPv6 || proto == Udp) && 4 <= at < 6
    case _ => false
  }

  /** Only such bytes of the header change. */
  ghost predicate FieldWritten(before: Bytes, after: Bytes, h: Header, kind: Kind) {
    |after| == |before| &&
    forall k :: 0 <= k < |before| && after[k] != before[k] ==>
      h.start <= k < h.start + h.len && Touches(kind, h.proto, k - h.start)
  }

  /** A new header lies in the buffer, and its next-header field holds what was there. */
  ghost predicate Laid(x: Wire, y: Wire, idx: nat, it: Item) {
    y.buf == x.buf && idx <= |x.hs| && |y.hs| == |x.hs| + 1 && y.hs == Insert(x.hs, idx, y.hs[idx]) &&
    ShownAt(x.buf, y.hs[idx], it)
  }

  /** What an action does to the packet. */
  ghost predicate WireStep(x: Wire, y: Wire, a: Action, fill: nat -> nat) {
    match a
    case AddHdr(idx, proto, tag) => idx <= |x.hs| && Laid(x, y, idx, Item(tag, proto, fill(tag)))
    case DelHdr(hdr) => hdr.idx < |x.hs| && y == Wire(x.buf, Remove(x.hs, hdr.idx))
    case EditHdr(assigns) => y.hs == x.hs && Edited(x.buf, y.buf, x.hs, assigns)
    case OnField(kind, hdr, _) => y.hs == x.hs && hdr.idx < |x.hs| && FieldWritten(x.buf, y.buf, x.hs[hdr.idx], kind)
    case _ => y == x
  }

  lemma {:induction false} AddShown(buf: Bytes, hs: seq<Header>, items: seq<Item>, idx: nat, h: Header, it: Item)
    requires Shown(buf, hs, items) && idx <= |hs| && ShownAt(buf, h, it)
    ensures Shown(buf, Insert(hs, idx, h), Insert(items, idx, it))
  {
    forall i | 0 <= i < |hs| + 1
      ensures ShownAt(buf, Insert(hs, idx, h)[i], Insert(items, idx, it)[i])
    {
      if i < idx {
        assert ShownAt(buf, hs[i], items[i]);
      } else if i > idx {
        assert ShownAt(buf, hs[i - 1], items[i - 1]);
      }
    }
  }

  lemma {:induction false} DelShown(buf: Bytes, hs: seq<Header>, items: seq<Item>, idx: nat)
    requires Shown(buf, hs, items) && idx < |hs|
    ensures Shown(buf, Remove(hs, idx), Remove(items, idx))
  {
    forall i | 0 <= i < |hs| - 1
      ensures ShownAt(buf, Remove(hs, idx)[i], Remove(items, idx)[i])
    {
      var j := if i < idx then i else i + 1;
      assert ShownAt(buf, hs[j], items[j]);
    }
  }

  /** No field that such an action writes is a next-header field. */
  lemma {:induction false} NextUntouched(kind: Kind, proto: Proto, k: int)
    requires FamilyOf(proto) != NoFamily
    requires NextField(proto).offset <= k < NextField(proto).offset + NextField(proto).count
    ensures !Touches(kind, proto, k / 8)
  {
  }

  lemma {:induction false} NextKept(before: Bytes, after: Bytes, h: Header, kind: Kind, g: Header)
    requires FieldWritten(before, after, h, kind) && Fits(before, g) && FamilyOf(g.proto) != NoFamily
    requires h == g || PacketLayout.Disjoint(h, g)
    ensures Fits(after, g) && NextOnWire(after, g) == NextOnWire(before, g)
  {
    FieldInside(before, g);
    forall k | NextAt(g) <= k < NextAt(g) + NextBits(g)
      ensures Bit(after, k) <==> Bit(before, NextAt(g) + (k - NextAt(g)))
    {
      NextUntouched(kind, g.proto, k - 8 * g.start);
      assert k / 8 - g.start == (k - 8 * g.start) / 8;
      assert after[k / 8] == before[k / 8];
    }
    SameNumber(after, NextAt(g), before, NextAt(g), NextBits(g));
  }

  lemma {:induction false} FieldShown(before: Bytes, after: Bytes, hs: seq<Header>, items: seq<Item>, d: nat,
                                      kind: Kind)
    requires Shown(before, hs, items) && Apart(hs) && d < |hs| && FieldWritten(before, after, hs[d], kind)
    ensures Shown(after, hs, items)
  {
    forall i | 0 <= i < |hs|
      ensures ShownAt(after, hs[i], items[i])
    {
      assert ShownAt(before, hs[i], items[i]);
      if FamilyOf(hs[i].proto) != NoFamily { NextKept(before, after, hs[d], kind, hs[i]); }
    }
  }

  lemma {:induction false} StepShown(x: Wire, y: Wire, m: Path, a: Action, fill: nat -> nat)
    requires Shown(x.buf, x.hs, m.items) && Apart(x.hs) && WireStep(x, y, a, fill)
    ensures Shown(y.buf, y.hs, Exec(m, a, fill).items)
  {
    match a
    case EditHdr(assigns) => EditShown(x.buf, y.buf, x.hs, m.items, assigns);
    case AddHdr(idx, proto, tag) => AddShown(x.buf, x.hs, m.items, idx, y.hs[idx], Item(tag, proto, fill(tag)));
    case DelHdr(hdr) => DelShown(x.buf, x.hs, m.items, hdr.idx);
    case OnField(kind, hdr, _) => FieldShown(x.buf, y.buf, x.hs, m.items, hdr.idx, kind);
    case _ =>
  }

  // ----- every run -----

  /** Header i of the packet names the type of the header behind it. */
  predicate NamesNext(x: Wire, i: nat)
    requires i + 1 < |x.hs|
  {
    FamilyOf(x.hs[i].proto) == NoFamily ||
    (Fits(x.buf, x.hs[i]) && CodeOf(FamilyOf(x.hs[i].proto), x.hs[i + 1].proto) == Some(NextOnWire(x.buf, x.hs[i])))
  }

  ghost predicate LinkedOnWire(x: Wire) {
    forall i :: 0 <= i && i + 2 < |x.hs| ==> NamesNext(x, i)
  }

  lemma {:induction false} ChainOnWire(x: Wire, items: seq<Item>)
    requires Shown(x.buf, x.hs, items) && Chained(items)
    ensures LinkedOnWire(x)
  {
    forall i | 0 <= i && i + 2 < |x.hs|
      ensures NamesNext(x, i)
    {
      assert ShownAt(x.buf, x.hs[i], items[i]) && ShownAt(x.buf, x.hs[i + 1], items[i + 1]);
      assert Linked(items, i);
    }
  }

  /** What the last header's bytes say of the payload, if anything, is what the last header of the packet x said. */
  predicate SamePayloadOnWire(x: Wire, y: Wire) {
    |y.hs| >= 2 && HasNext(y.buf, y.hs, |y.hs| - 2) ==>
      |x.hs| >= 2 && HasNext(x.buf, x.hs, |x.hs| - 2) &&
      FamilyOf(x.hs[|x.hs| - 2].proto) == FamilyOf(y.hs[|y.hs| - 2].proto) &&
      NextOnWire(x.buf, x.hs[|x.hs| - 2]) == NextOnWire(y.buf, y.hs[|y.hs| - 2])
  }

  lemma {:induction false} PayloadOnWire(x: Wire, before: seq<Item>, y: Wire, after: seq<Item>)
    requires Shown(x.buf, x.hs, before) && Shown(y.buf, y.hs, after) && SamePayloadCode(before, after)
    ensures SamePayloadOnWire(x, y)
  {
    if |y.hs| >= 2 && HasNext(y.buf, y.hs, |y.hs| - 2) {
      assert ShownAt(y.buf, y.hs[|y.hs| - 2], after[|after| - 2]);
      assert ShownAt(x.buf, x.hs[|x.hs| - 2], before[|before| - 2]);
    }
  }

  /** In every run from y, the packet is linked at every send and every replication, and says of the payload what the
      original packet x said; a replica has the same bytes. */
  ghost predicate SentLinked(x: Wire, y: Wire, acts: seq<Action>, fill: nat -> nat)
    decreases acts
  {
    acts == [] ||
    ((acts[0] == Do(Send) || acts[0].Repl? ==> LinkedOnWire(y) && SamePayloadOnWire(x, y)) &&
     (acts[0].Repl? ==>
        forall i :: 0 <= i < |acts[0].branches| ==> SentLinked(x, y, acts[0].branches[i].acts, fill)) &&
     forall z: Wire :: Apart(z.hs) && WireStep(y, z, acts[0], fill) ==> SentLinked(x, z, acts[1..], fill))
  }

  lemma {:induction false} LinkedIsSent(x: Wire, origin: seq<Item>, y: Wire, m: Path, acts: seq<Action>,
                                        fill: nat -> nat)
    requires Shown(x.buf, x.hs, origin) && Shown(y.buf, y.hs, m.items) && Apart(y.hs)
    requires SendsLinked(origin, m, acts, fill)
    ensures SentLinked(x, y, acts, fill)
    decreases acts
  {
    if acts != [] {
      if Chained(m.items) { ChainOnWire(y, m.items); }
      if SamePayloadCode(origin, m.items) { PayloadOnWire(x, origin, y, m.items); }
      if acts[0].Repl? {
        forall i | 0 <= i < |acts[0].branches|
          ensures SentLinked(x, y, acts[0].branches[i].acts, fill)
        {
          LinkedIsSent(x, origin, y, m, acts[0].branches[i].acts, fill);
        }
      }
      forall z: Wire | Apart(z.hs) && WireStep(y, z, acts[0], fill)
        ensures SentLinked(x, z, acts[1..], fill)
      {
        StepShown(y, z, m, acts[0], fill);
        LinkedIsSent(x, origin, z, Exec(m, acts[0], fill), acts[1..], fill);
      }
    }
  }

  /** A packet whose headers name each other leaves the compiled actions so, in its bytes. */
  lemma {:induction false} SentPacketsAreLinked(env: Pipelines, s: State, stages: seq<Stage>, m: Path, x: Wire,
                                                fill: nat -> nat)
    requires Compile(env, s, stages).Some? && Simulation.Fits(m, s) && Simulation.Fresh(s)
    requires Untouched(stages) && AllUntouched(env) && Chained(m.items)
    requires Shown(x.buf, x.hs, m.items) && Apart(x.hs)
    ensures SentLinked(x, x, Compile(env, s, stages).value, fill)
  {
    SendsAreLinked(env, s, stages, m.items, m, fill);
    LinkedIsSent(x, m.items, x, m, Compile(env, s, stages).value, fill);
  }

  // ----- the packet itself makes these steps -----

  function WireOf(p: PacketLayout.Pkt): Wire { Wire(p.buf, p.layout.headers) }

  lemma {:induction false} PlacedIsApart(l: PacketLayout.Layout)
    requires PacketLayout.WellPlaced(l)
    ensures Apart(l.headers)
  {
    forall i, j | 0 <= i < |l.headers| && 0 <= j < |l.headers| && i != j
      ensures PacketLayout.Disjoint(l.headers[i], l.headers[j])
    {
      if i < j {
        assert PacketLayout.Disjoint(l.headers[i], l.headers[j]);
      } else {
        assert PacketLayout.Disjoint(l.headers[j], l.headers[i]);
      }
    }
  }

  /** packet_add_header is the step of an add whose next-header field begins with what the scratch space held. */
  lemma {:induction false} AddIsStep(p: PacketLayout.Pkt, idx: nat, proto: Proto, tag: nat, fill: nat -> nat)
    requires |p.buf| == PacketLayout.BUF_LEN && PacketLayout.WellPlaced(p.layout)
    requires PacketLayout.AddHeader(p.layout, idx, proto, ByteLength(proto)).Some?
    requires var h := PacketLayout.Header(proto, p.layout.scratchLen, ByteLength(proto));
             FamilyOf(proto) != NoFamily ==> fill(tag) == NextOnWire(p.buf, h)
    ensures var q := PacketLayout.Step(p, PacketLayout.Add(idx, proto, ByteLength(proto)));
            WireStep(WireOf(p), WireOf(q), AddHdr(idx, proto, tag), fill) && Apart(WireOf(q).hs)
  {
    PacketLayout.AddKeepsPlaced(p.layout, idx, proto, ByteLength(proto));
    PlacedIsApart(PacketLayout.AddHeader(p.layout, idx, proto, ByteLength(proto)).value);
  }

  /** In a packet whose unused scratch space is zero that is 0. */
  lemma {:induction false} NewFieldIsZero(p: PacketLayout.Pkt, idx: nat, proto: Proto)
    requires PacketLayout.Valid(p) && FamilyOf(proto) != NoFamily
    requires PacketLayout.AddHeader(p.layout, idx, proto, ByteLength(proto)).Some?
    ensures NextOnWire(p.buf, PacketLayout.Header(proto, p.layout.scratchLen, ByteLength(proto))) == 0
  {
    var h := PacketLayout.Header(proto, p.layout.scratchLen, ByteLength(proto));
    FieldInside(p.buf, h);
    forall k | NextAt(h) <= k < NextAt(h) + NextBits(h)
      ensures !Bit(p.buf, k)
    {
      NoBits(7 - k % 8);
    }
    ZeroNumber(p.buf, NextAt(h), NextBits(h));
  }

  lemma {:induction false} DelIsStep(p: PacketLayout.Pkt, hdr: Ref, fill: nat -> nat)
    requires PacketLayout.WellPlaced(p.layout) && |p.buf| == PacketLayout.BUF_LEN && hdr.idx < |p.layout.headers|
    ensures var q := PacketLayout.Step(p, PacketLayout.Del(hdr.idx));
            WireStep(WireOf(p), WireOf(q), DelHdr(hdr), fill) && Apart(WireOf(q).hs)
  {
    PacketLayout.DelKeepsPlaced(p.layout, hdr.idx);
    PlacedIsApart(PacketLayout.DelHeader(p.layout, hdr.idx));
  }

  lemma {:induction false} ChecksumWritten(buf: Bytes, h: Header, f: nat, c: nat)
    requires HasChecksum(h.proto) && f == h.start + PacketChecksum.FieldOffset(h.proto) && f + 2 <= |buf|
    requires h.len >= ByteLength(h.proto) && c < 65536
    ensures FieldWritten(buf, PacketChecksum.PutField(PacketChecksum.PutField(buf, f, 0, 0), f, c / 256, c % 256), h,
                         Checksum)
  {
  }

  lemma {:induction false} ChecksumIsStep(x: Wire, cp: PacketChecksum.Params, stack: nat, tag: nat, ip: Option<Ref>,
                                          fill: nat -> nat)
    requires PacketChecksum.Fits(x.buf, x.hs, cp) && stack < 4
    requires x.hs[cp.hdrIdx].proto == cp.proto && x.hs[cp.hdrIdx].len >= ByteLength(cp.proto)
    ensures WireStep(x, x.(buf := PacketChecksum.Computed(x.buf, x.hs, cp, stack)),
                     OnField(Checksum, Ref(cp.hdrIdx, tag), ip), fill)
  {
    var f, h := PacketChecksum.Field(x.hs, cp), x.hs[cp.hdrIdx];
    var c := InetChecksum.CsumFold(
      PacketChecksum.Summed(PacketChecksum.Cleared(x.buf, x.hs, cp), x.hs, cp, stack).sum);
    ChecksumWritten(x.buf, h, f, c);
  }

  lemma {:induction false} TtlIsStep(x: Wire, i: nat, adjust: bool, tag: nat, fill: nat -> nat)
    requires i < |x.hs| && x.hs[i].proto == IPv4 && Fits(x.buf, x.hs[i])
    ensures var start := x.hs[i].start;
            WireStep(x, x.(buf := PacketChecksum.TtlReduced(x.buf, start + 8, false, start + 10, adjust)),
                     OnField(TtlReduce, Ref(i, tag), None), fill)
  {
  }
}
