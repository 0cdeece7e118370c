/** The action compiler as a function of the stage list, in emission order (conf_actions.c). */
module Compiler {
  import opened Basics
  import opened Protocols
  import opened Actions

  const MAX_DEPTH: nat := 10

  /** A header of the compiler's list. Tags are never reused; 0 is the payload's. */
  datatype Desc = Desc(name: string, proto: Proto, tag: nat)

  /** The TTL check that the next send must make: none, on a header of this list, or on a header of the
      list that this one was copied from. */
  datatype Check = NoCheck | Due(tag: nat) | DueOutside

  datatype State = State(headers: seq<Desc>, seqSet: bool, ttlSet: bool, due: Check, depth: nat, nextTag: nat)
  datatype Emitted = Emitted(state: State, acts: seq<Action>)
  type Pipelines = map<string, seq<Stage>>

  // ----- names -----

  function FirstFrom(headers: seq<Desc>, name: string, i: nat): Option<nat>
    requires i <= |headers|
    decreases |headers| - i
  {
    if i == |headers| then None
    else if headers[i].name == name then Some(i)
    else FirstFrom(headers, name, i + 1)
  }

  lemma {:induction false} FirstFromIsFirst(headers: seq<Desc>, name: string, i: nat)
    requires i <= |headers|
    ensures match FirstFrom(headers, name, i)
            case None => forall j :: i <= j < |headers| ==> headers[j].name != name
            case Some(k) =>
              i <= k < |headers| && headers[k].name == name &&
              forall j :: i <= j < k ==> headers[j].name != name
    decreases |headers| - i
  {
    if i < |headers| && headers[i].name != name { FirstFromIsFirst(headers, name, i + 1); }
  }

  /** The one header of that name; ambiguous names are refused. */
  function Find(headers: seq<Desc>, name: string): (r: Option<nat>)
    ensures r.Some? ==> r.value < |headers| && headers[r.value].name == name
  {
    FirstFromIsFirst(headers, name, 0);
    var first := FirstFrom(headers, name, 0);
    if first.Some? && FirstFrom(headers, name, first.value + 1).None? then first else None
  }

  /** A name is resolved exactly when one and only one header bears it. */
  lemma {:induction false} FindIsUnique(headers: seq<Desc>, name: string, i: nat)
    ensures Find(headers, name) == Some(i) <==>
            i < |headers| && headers[i].name == name &&
            forall j :: 0 <= j < |headers| && headers[j].name == name ==> j == i
  {
    FirstFromIsFirst(headers, name, 0);
    var first := FirstFrom(headers, name, 0);
    if first.Some? { FirstFromIsFirst(headers, name, first.value + 1); }
  }

  function RefTo(headers: seq<Desc>, i: nat): Ref
    requires i < |headers|
  {
    Ref(i, headers[i].tag)
  }

  /** The right-hand side of an assignment, resolved in the header list as it is when it is read. */
  function Resolve(headers: seq<Desc>, field: FieldKind, value: Source): Option<Rhs> {
    match value
    case Literal(code) => Some(Value(code))
    case OfHeader(name) =>
      var at := Find(headers, name);
      if at.None? || (field == Next && FamilyOf(headers[at.value].proto) == NoFamily) then None
      else Some(FieldOf(RefTo(headers, at.value)))
  }

  // ----- add -----

  function UserAssign(headers: seq<Desc>, me: Ref, proto: Proto, x: Setting): Option<Assign> {
    var rhs := Resolve(headers, x.field, x.value);
    if rhs.None? || (x.field == Next && FamilyOf(proto) == NoFamily) then None
    else Some(Write(me, x.field, rhs.value, true))
  }

  function UserAssigns(headers: seq<Desc>, me: Ref, proto: Proto, xs: seq<Setting>, n: nat): (r: Option<seq<Assign>>)
    requires n <= |xs|
    ensures r.Some? ==> |r.value| == n
  {
    if n == 0 then Some([]) else
    var before := UserAssigns(headers, me, proto, xs, n - 1);
    var a := UserAssign(headers, me, proto, xs[n - 1]);
    if before.None? || a.None? then None else Some(before.value + [a.value])
  }

  /** The automatic sequence number and timestamp of a new header. */
  function MetaActions(seqSet: bool, me: Ref, proto: Proto): Option<seq<Action>> {
    if HasSeq(proto) && !seqSet then None
    else Some((if HasSeq(proto) then [OnField(WriteSeq, me, None)] else []) +
              (if HasTstamp(proto) then [OnField(WriteTstamp, me, None)] else []))
  }

  /** dst's next-header field names a header of this type, if it can. */
  function NameType(dst: Ref, dstProto: Proto, proto: Proto): Option<seq<Assign>> {
    var code := CodeOf(FamilyOf(dstProto), proto);
    if code.None? then None else Some([Write(dst, Next, Value(code.value), false)])
  }

  /** dst's next-header field takes the value of src's, if both use the same numbering. */
  function CopyNext(dst: Ref, dstProto: Proto, src: Ref, srcProto: Proto): Option<seq<Assign>> {
    if FamilyOf(dstProto) != FamilyOf(srcProto) then None else Some([Write(dst, Next, FieldOf(src), false)])
  }

  predicate SetsNext(xs: seq<Setting>) { exists i :: 0 <= i < |xs| && xs[i].field == Next }

  /** How the next-header field of a header added before headers[idx] is set, unless the user sets it. */
  function NextOfNew(headers: seq<Desc>, idx: nat, me: Ref, proto: Proto, userSets: bool): Option<seq<Assign>>
    requires idx <= |headers|
  {
    if FamilyOf(proto) == NoFamily || userSets then Some([])
    else if idx < |headers| then NameType(me, proto, headers[idx].proto)
    else if idx == 0 then None
    else CopyNext(me, proto, RefTo(headers, idx - 1), headers[idx - 1].proto)
  }

  function NextOfPrevious(headers: seq<Desc>, idx: nat, proto: Proto): Option<seq<Assign>>
    requires idx <= |headers|
  {
    if idx == 0 || FamilyOf(headers[idx - 1].proto) == NoFamily then Some([])
    else NameType(RefTo(headers, idx - 1), headers[idx - 1].proto, proto)
  }

  function DefaultBytes(me: Ref, proto: Proto): seq<Assign> {
    if HasDefault(proto) then [SetDefault(me)] else []
  }

  function EditOf(assigns: seq<Assign>): seq<Action> {
    if assigns == [] then [] else [EditHdr(assigns)]
  }

  /** Where an add stage puts its header. */
  function AddIndex(headers: seq<Desc>, stage: Stage): (r: Option<nat>)
    requires stage.AddStage?
    ensures r.Some? ==> r.value <= |headers| && |headers| > 0
  {
    var at := Find(headers, stage.pos);
    if at.None? then None else Some(if stage.after then at.value + 1 else at.value)
  }

  /** The assignments that follow an add: default bytes, the new header's next field, that of the header
      before it, the user's. */
  function AddAssigns(headers: seq<Desc>, idx: nat, me: Ref, stage: Stage): Option<seq<Assign>>
    requires stage.AddStage? && idx <= |headers|
  {
    var mine := NextOfNew(headers, idx, me, stage.proto, SetsNext(stage.settings));
    var previous := NextOfPrevious(headers, idx, stage.proto);
    var user := UserAssigns(headers, me, stage.proto, stage.settings, |stage.settings|);
    if mine.None? || previous.None? || user.None? then None
    else Some(DefaultBytes(me, stage.proto) + mine.value + previous.value + user.value)
  }

  function EmitAdd(s: State, stage: Stage): Option<Emitted>
    requires stage.AddStage?
  {
    var at := AddIndex(s.headers, stage);
    if at.None? then None else
    var me := Ref(at.value, s.nextTag);
    var meta := MetaActions(s.seqSet, me, stage.proto);
    var assigns := AddAssigns(s.headers, at.value, me, stage);
    if meta.None? || assigns.None? then None else
    Some(Emitted(s.(headers := Insert(s.headers, at.value, Desc(stage.name, stage.proto, s.nextTag)),
                    nextTag := s.nextTag + 1),
                 [AddHdr(at.value, stage.proto, s.nextTag)] + meta.value + EditOf(assigns.value)))
  }

  // ----- delete -----

  function NextAfterDelete(headers: seq<Desc>, idx: nat): Option<seq<Assign>>
    requires idx < |headers|
  {
    if idx == 0 || FamilyOf(headers[idx - 1].proto) == NoFamily then Some([])
    else if idx + 1 < |headers| then NameType(RefTo(headers, idx - 1), headers[idx - 1].proto, headers[idx + 1].proto)
    else CopyNext(RefTo(headers, idx - 1), headers[idx - 1].proto, RefTo(headers, idx), headers[idx].proto)
  }

  function FilterBefore(hdr: Ref, proto: Proto): seq<Action> {
    if HasSeq(proto) then [OnField(FilterOam, hdr, None)] else []
  }

  function EmitDel(s: State, name: string): Option<Emitted> {
    var at := Find(s.headers, name);
    if at.None? then None else
    var hdr := RefTo(s.headers, at.value);
    var next := NextAfterDelete(s.headers, at.value);
    if next.None? then None else
    Some(Emitted(s.(headers := Remove(s.headers, at.value), due := if s.due == Due(hdr.tag) then NoCheck else s.due),
                 FilterBefore(hdr, s.headers[at.value].proto) + EditOf(next.value) + [DelHdr(hdr)]))
  }

  // ----- edit and actions on a field -----

  function ChangeOf(headers: seq<Desc>, x: Change): Option<Assign> {
    var at := Find(headers, x.header);
    var rhs := Resolve(headers, x.field, x.value);
    if at.None? || rhs.None? || (x.field == Next && FamilyOf(headers[at.value].proto) == NoFamily) then None
    else Some(Write(RefTo(headers, at.value), x.field, rhs.value, false))
  }

  function Changes(headers: seq<Desc>, xs: seq<Change>, n: nat): (r: Option<seq<Assign>>)
    requires n <= |xs|
    ensures r.Some? ==> |r.value| == n
  {
    if n == 0 then Some([]) else
    var before := Changes(headers, xs, n - 1);
    var a := ChangeOf(headers, xs[n - 1]);
    if before.None? || a.None? then None else Some(before.value + [a.value])
  }

  function EmitEdit(s: State, xs: seq<Change>): Option<Emitted> {
    var assigns := Changes(s.headers, xs, |xs|);
    if assigns.None? || xs == [] then None else Some(Emitted(s, [EditHdr(assigns.value)]))
  }

  /** Sequence numbers are also kept in the address of an IPv6 header (SRv6), but only where a stage says so: no
      new header is numbered there, and no OAM is filtered before such a header goes. */
  predicate HasField(kind: Kind, proto: Proto) {
    match kind
    case Checksum => HasChecksum(proto)
    case Verify => HasChecksum(proto)
    case ReadSeq => HasSeq(proto) || proto == IPv6
    case WriteSeq => HasSeq(proto) || proto == IPv6
    case ReadTstamp => HasTstamp(proto)
    case WriteTstamp => HasTstamp(proto)
    case TtlReduce => HasTtl(proto)
    case SetLength => proto == IPv4 || proto == IPv6 || proto == Udp
    case FilterOam => false
  }

  predicate IsIp(d: Desc) { d.proto == IPv4 || d.proto == IPv6 }

  /** The last IP header before index n, if there is one. */
  function LastIp(headers: seq<Desc>, n: nat): (r: Option<nat>)
    requires n <= |headers|
    ensures r.None? ==> forall i :: 0 <= i < n ==> !IsIp(headers[i])
    ensures r.Some? ==> r.value < n && IsIp(headers[r.value]) && forall i :: r.value < i < n ==> !IsIp(headers[i])
  {
    if n == 0 then None
    else if IsIp(headers[n - 1]) then Some(n - 1)
    else LastIp(headers, n - 1)
  }

  /** The payload: a header declared as such, otherwise what follows all headers. */
  function PayloadFrom(headers: seq<Desc>, i: nat): Ref
    requires i <= |headers|
    decreases |headers| - i
  {
    if i == |headers| then Ref(i, 0)
    else if headers[i].proto == Payload then RefTo(headers, i)
    else PayloadFrom(headers, i + 1)
  }

  predicate NeedsIp(kind: Kind, proto: Proto) { (kind == Checksum || kind == Verify) && proto != IPv4 }

  /** The second header that an action needs: the IP header of a checksum, the payload of a length. */
  function OtherHeader(headers: seq<Desc>, kind: Kind, at: nat): Option<Option<Ref>>
    requires at < |headers|
  {
    if NeedsIp(kind, headers[at].proto) then
      var ip := LastIp(headers, at);
      if ip.None? then None else Some(Some(RefTo(headers, ip.value)))
    else if kind == SetLength then Some(Some(PayloadFrom(headers, 0)))
    else Some(None)
  }

  function EmitField(s: State, kind: Kind, name: string): Option<Emitted> {
    var at := Find(s.headers, name);
    if at.None? || !HasField(kind, s.headers[at.value].proto) || (kind == WriteSeq && !s.seqSet) then None else
    var other := OtherHeader(s.headers, kind, at.value);
    if other.None? then None else
    Some(Emitted(s.(seqSet := s.seqSet || kind == ReadSeq, ttlSet := s.ttlSet || kind == TtlReduce),
                 [OnField(kind, RefTo(s.headers, at.value), other.value)]))
  }

  function EmitPlain(s: State, what: Plain): Option<Emitted> {
    match what
    case SeqGen => Some(Emitted(s.(seqSet := true), [Do(SeqGen)]))
    case Pof => if s.seqSet then Some(Emitted(s, [Do(Pof)])) else None
    case TtlCheck => if s.ttlSet then Some(Emitted(s, [Do(TtlCheck)])) else None
    case Drop => Some(Emitted(s, [Do(Drop)]))
    case Send =>
      if s.due == NoCheck then Some(Emitted(s, [Do(Send)]))
      else if s.ttlSet then Some(Emitted(s.(due := NoCheck), [Do(TtlCheck), Do(Send)]))
      else None
  }

  // ----- whole pipelines -----

  /** Stages after which no stage may come. */
  predicate Final(stage: Stage) {
    stage == PlainStage(Drop) || stage.ElimStage? || stage.JumpStage? || stage.ReplStage?
  }

  function Emit(s: State, stage: Stage): (r: Option<Emitted>)
    requires !Final(stage)
    ensures r.Some? ==> r.value.state.depth == s.depth
  {
    match stage
    case AddStage(_, _, _, _, _) => EmitAdd(s, stage)
    case DelStage(header) => EmitDel(s, header)
    case EditStage(changes) => EmitEdit(s, changes)
    case FieldStage(kind, header) => EmitField(s, kind, header)
    case PlainStage(what) => EmitPlain(s, what)
  }

  /** What is left of the nesting budget. */
  function Budget(s: State): nat { if s.depth <= MAX_DEPTH + 1 then MAX_DEPTH + 2 - s.depth else 0 }

  /** Jumps and branches nest at most 11 deep, so compilation ends, whatever the pipelines refer to. */
  function Compile(env: Pipelines, s: State, stages: seq<Stage>): Option<seq<Action>>
    decreases Budget(s), 2, |stages|
  {
    if stages == [] then Some([])
    else if Final(stages[0]) then (if |stages| > 1 then None else CompileFinal(env, s, stages[0]))
    else
      var e := Emit(s, stages[0]);
      if e.None? then None else
      var rest := Compile(env, e.value.state, stages[1..]);
      if rest.None? then None else Some(e.value.acts + rest.value)
  }

  function CompileFinal(env: Pipelines, s: State, stage: Stage): Option<seq<Action>>
    requires Final(stage)
    decreases Budget(s), 1, 0
  {
    match stage
    case PlainStage(_) => Some([Do(Drop)])
    case JumpStage(pipe) => Inlined(env, s, pipe)
    case ElimStage(pipe) =>
      var r := Inlined(env, s, pipe);
      if r.None? || !s.seqSet then None else Some([Elim] + r.value)
    case ReplStage(pipes) =>
      var r := Branches(env, s, pipes, |pipes|);
      if r.None? || pipes == [] then None else Some([Repl(r.value)])
  }

  /** A pipeline compiled in place; an undefined or empty one is refused. */
  function Inlined(env: Pipelines, s: State, pipe: string): Option<seq<Action>>
    decreases Budget(s), 0, 0
  {
    if pipe !in env || s.depth > MAX_DEPTH then None else
    var r := Compile(env, s.(depth := s.depth + 1), env[pipe]);
    if r == Some([]) then None else r
  }

  /** A branch works on a copy of the header list, on which the pending TTL check has no header. */
  function Copied(s: State): State {
    s.(due := if s.due == NoCheck then NoCheck else DueOutside)
  }

  function Branches(env: Pipelines, s: State, pipes: seq<string>, n: nat): (r: Option<seq<Branch>>)
    requires n <= |pipes|
    ensures r.Some? ==> |r.value| == n
    decreases Budget(s), 0, n + 1
  {
    if n == 0 then Some([]) else
    var before := Branches(env, s, pipes, n - 1);
    var b := Inlined(env, Copied(s), pipes[n - 1]);
    if before.None? || b.None? then None else Some(before.value + [Branch(b.value)])
  }

  /** The start of a stream: its headers, and the automatic TTL reduction on the first. */
  function Tagged(headers: seq<(string, Proto)>, n: nat): (r: seq<Desc>)
    requires n <= |headers|
    ensures |r| == n
  {
    if n == 0 then [] else Tagged(headers, n - 1) + [Desc(headers[n - 1].0, headers[n - 1].1, n)]
  }

  predicate StartsWithTtl(headers: seq<(string, Proto)>) { headers != [] && HasTtl(headers[0].1) }

  function Start(headers: seq<(string, Proto)>): State {
    var ttl := StartsWithTtl(headers);
    State(Tagged(headers, |headers|), false, ttl, if ttl then Due(1) else NoCheck, 0, |headers| + 1)
  }

  function AutoReduce(headers: seq<(string, Proto)>): seq<Action> {
    if StartsWithTtl(headers) then [OnField(TtlReduce, Ref(0, 1), None)] else []
  }

  /** A whole stream section. */
  function CompileStream(env: Pipelines, headers: seq<(string, Proto)>, stages: seq<Stage>): Option<seq<Action>> {
    var r := Compile(env, Start(headers), stages);
    if r.None? || AutoReduce(headers) + r.value == [] then None else Some(AutoReduce(headers) + r.value)
  }
}
