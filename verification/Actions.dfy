/** What the action compiler reads and what it emits (conf_actions.c), and what the emitted actions do
    to the header list of a packet (action.c, packet.c). */
module Actions {
  import opened Basics
  import opened Protocols

  // ----- the configuration, names not yet resolved -----

  datatype FieldKind = Next | Other
  datatype Source = Literal(code: nat) | OfHeader(name: string)
  datatype Setting = Setting(field: FieldKind, value: Source)
  datatype Change = Change(header: string, field: FieldKind, value: Source)
  datatype Plain = SeqGen | Pof | Send | TtlCheck | Drop
  datatype Kind =
    | Checksum | Verify | ReadSeq | WriteSeq | ReadTstamp | WriteTstamp | TtlReduce | SetLength | FilterOam

  datatype Stage =
    | AddStage(pos: string, after: bool, name: string, proto: Proto, settings: seq<Setting>)
    | DelStage(header: string)
    | EditStage(changes: seq<Change>)
    | FieldStage(kind: Kind, header: string)
    | PlainStage(what: Plain)
    | ElimStage(pipe: string)
    | JumpStage(pipe: string)
    | ReplStage(pipes: seq<string>)

  // ----- compiled actions -----

  /** A header by its index. The tag is the identity of the header that the compiler means. */
  datatype Ref = Ref(idx: nat, tag: nat)
  datatype Rhs = Value(code: nat) | FieldOf(src: Ref)

  /** An assignment to a field; inAdd marks those written by the user inside an add stage. */
  datatype Assign = Write(dst: Ref, field: FieldKind, rhs: Rhs, inAdd: bool) | SetDefault(dst: Ref)

  datatype Action =
    | AddHdr(idx: nat, proto: Proto, tag: nat)
    | DelHdr(hdr: Ref)
    | EditHdr(assigns: seq<Assign>)
    | OnField(kind: Kind, hdr: Ref, other: Option<Ref>)
    | Do(what: Plain)
    | Elim
    | Repl(branches: seq<Branch>)
    | Jump(pipe: string)

  datatype Branch = Branch(acts: seq<Action>)

  // ----- running them -----

  /** A header of the packet: its identity, its type and the value of its next-header field. */
  datatype Item = Item(tag: nat, proto: Proto, next: nat)

  /** What a path has so far: the header list; whether it read or made a sequence number and a TTL; the field of
      a new header that must be filled next; the header for which OAM was filtered last; the header whose TTL
      must be checked before the packet is sent. */
  datatype Path = Path(items: seq<Item>, seqSet: bool, ttlSet: bool, owed: Option<(Kind, nat)>, filtered: nat,
                       due: Option<nat>)

  /** The sequence number or timestamp that a new header of this type lacks. */
  function Owed(proto: Proto, tag: nat): Option<(Kind, nat)> {
    if HasSeq(proto) then Some((WriteSeq, tag)) else if HasTstamp(proto) then Some((WriteTstamp, tag)) else None
  }

  function WithNext(items: seq<Item>, i: nat, v: nat): seq<Item> {
    if i < |items| then items[i := items[i].(next := v)] else items
  }

  /** Only writes to next-header fields show here; the default bytes of a header clear that field. */
  function Assigned(items: seq<Item>, a: Assign): seq<Item> {
    match a
    case SetDefault(dst) => WithNext(items, dst.idx, 0)
    case Write(dst, Other, _, _) => items
    case Write(dst, Next, Value(code), _) => WithNext(items, dst.idx, code)
    case Write(dst, Next, FieldOf(src), _) =>
      if src.idx < |items| then WithNext(items, dst.idx, items[src.idx].next) else items
  }

  function AssignedAll(items: seq<Item>, assigns: seq<Assign>): (r: seq<Item>)
    ensures |r| == |items|
    decreases |assigns|
  {
    if assigns == [] then items else AssignedAll(Assigned(items, assigns[0]), assigns[1..])
  }

  function Insert<T>(s: seq<T>, i: nat, x: T): seq<T>
    requires i <= |s|
  {
    s[..i] + [x] + s[i..]
  }

  function Remove<T>(s: seq<T>, i: nat): seq<T>
    requires i < |s|
  {
    s[..i] + s[i + 1..]
  }

  /** The next-header field of an added header holds whatever its bytes held before, fill(tag). */
  function Exec(m: Path, a: Action, fill: nat -> nat): Path {
    match a
    case AddHdr(idx, proto, tag) =>
      if idx <= |m.items|
      then m.(items := Insert(m.items, idx, Item(tag, proto, fill(tag))), owed := Owed(proto, tag)) else m
    case DelHdr(hdr) =>
      if hdr.idx < |m.items|
      then m.(items := Remove(m.items, hdr.idx), due := if m.due == Some(hdr.tag) then None else m.due) else m
    case EditHdr(assigns) => m.(items := AssignedAll(m.items, assigns))
    case OnField(kind, hdr, _) =>
      m.(seqSet := m.seqSet || kind == ReadSeq, ttlSet := m.ttlSet || kind == TtlReduce,
         owed := if m.owed == Some((kind, hdr.tag)) then None else m.owed,
         filtered := if kind == FilterOam then hdr.tag else m.filtered)
    case Do(what) => m.(seqSet := m.seqSet || what == SeqGen, due := if what == TtlCheck then None else m.due)
    case _ => m
  }

  function ExecAll(m: Path, acts: seq<Action>, fill: nat -> nat): Path
    decreases |acts|
  {
    if acts == [] then m else ExecAll(Exec(m, acts[0], fill), acts[1..], fill)
  }

  // ----- what must hold at every action of every path -----

  predicate RefOk(items: seq<Item>, r: Ref) { r.idx < |items| && items[r.idx].tag == r.tag }

  /** The header indices name the headers they were compiled for. When strict, this includes the
      right-hand sides written inside add stages. */
  predicate AssignOk(items: seq<Item>, a: Assign, strict: bool) {
    RefOk(items, a.dst) && (a.Write? && a.rhs.FieldOf? && (strict || !a.inAdd) ==> RefOk(items, a.rhs.src))
  }

  predicate AssignsOk(items: seq<Item>, assigns: seq<Assign>, strict: bool) {
    forall i :: 0 <= i < |assigns| ==> AssignOk(items, assigns[i], strict)
  }

  /** A new header's sequence number or timestamp is written at once, OAM is filtered before a sequence tag is
      deleted, a sequence number and a TTL are there before they are used, and no packet is sent before the
      pending TTL check. */
  predicate ActionOk(m: Path, a: Action, strict: bool) {
    (m.owed.None? || (a.OnField? && m.owed == Some((a.kind, a.hdr.tag)))) &&
    match a
    case AddHdr(idx, _, _) => idx < |m.items|
    case DelHdr(hdr) => RefOk(m.items, hdr) && (HasSeq(m.items[hdr.idx].proto) ==> m.filtered == hdr.tag)
    case EditHdr(assigns) => AssignsOk(m.items, assigns, strict)
    case OnField(kind, hdr, other) =>
      RefOk(m.items, hdr) && (other.Some? ==> RefOk(m.items, other.value)) && (kind == WriteSeq ==> m.seqSet)
    case Do(what) => (what == Pof ==> m.seqSet) && (what == TtlCheck ==> m.ttlSet) && (what == Send ==> m.due.None?)
    case Elim => m.seqSet
    case Repl(branches) => branches != []
    case Jump(_) => false
  }

  predicate EndsPath(a: Action) { a.Repl? || a == Do(Drop) }

  /** Every action on every path from here is right in this sense, none is a jump, and nothing
      follows a drop or a replication; each branch starts on the packet as it is at the replication. */
  predicate Sound(m: Path, acts: seq<Action>, strict: bool, fill: nat -> nat)
    decreases acts
  {
    acts == [] ||
    (ActionOk(m, acts[0], strict) && (EndsPath(acts[0]) ==> |acts| == 1) &&
     (acts[0].Repl? ==> forall i :: 0 <= i < |acts[0].branches| ==>
        acts[0].branches[i].acts != [] && Sound(m, acts[0].branches[i].acts, strict, fill)) &&
     Sound(Exec(m, acts[0], fill), acts[1..], strict, fill))
  }

  lemma {:induction false} ExecAppend(m: Path, a: seq<Action>, b: seq<Action>, fill: nat -> nat)
    ensures ExecAll(m, a + b, fill) == ExecAll(ExecAll(m, a, fill), b, fill)
    decreases |a|
  {
    if a == [] {
      assert a + b == b;
    } else {
      assert (a + b)[1..] == a[1..] + b;
      ExecAppend(Exec(m, a[0], fill), a[1..], b, fill);
    }
  }

  /** Of a list in which nothing ends the path. */
  lemma {:induction false} SoundAppend(m: Path, a: seq<Action>, b: seq<Action>, strict: bool, fill: nat -> nat)
    requires forall i :: 0 <= i < |a| ==> !EndsPath(a[i])
    ensures Sound(m, a + b, strict, fill) <==> Sound(m, a, strict, fill) && Sound(ExecAll(m, a, fill), b, strict, fill)
    decreases |a|
  {
    if a == [] {
      assert a + b == b;
    } else {
      assert (a + b)[0] == a[0] && (a + b)[1..] == a[1..] + b && !EndsPath(a[0]);
      SoundAppend(Exec(m, a[0], fill), a[1..], b, strict, fill);
    }
  }
}
