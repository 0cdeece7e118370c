/** What a stage means in terms of the names in the configuration, and that the compiled actions, run on a packet,
    do just that (conf_actions.c into action.c). Headers have a name, a type and an identity. */
module StageMeaning {
  import opened Basics
  import opened Protocols
  import opened Actions
  import opened Compiler
  import opened Simulation

  // ----- the reference -----

  /** Header i bears the name, and no other does. */
  ghost predicate IsThe(hs: seq<Desc>, name: string, i: nat) {
    i < |hs| && hs[i].name == name && forall j :: 0 <= j < |hs| && hs[j].name == name ==> j == i
  }

  /** Something that was done to a header of the packet, known by the identity of the header that it met. */
  datatype Deed =
    | Acted(kind: Kind, id: nat, other: Option<nat>)
    | Wrote(id: nat, field: FieldKind, from: From)
    | Defaulted(id: nat)
    | Did(what: Plain)
  datatype From = Code(code: nat) | Header(id: nat) | Untold

  /** Where a value comes from. Unless strict, nothing is told of other headers' fields inside an add stage. */
  ghost predicate FromRight(hs: seq<Desc>, value: Source, from: From, told: bool) {
    match value
    case Literal(code) => from == Code(code)
    case OfHeader(name) =>
      if told then exists i: nat :: IsThe(hs, name, i) && from == Header(hs[i].tag) else from == Untold
  }

  ghost predicate SettingDone(hs: seq<Desc>, id: nat, x: Setting, d: Deed, strict: bool) {
    d.Wrote? && d.id == id && d.field == x.field && FromRight(hs, x.value, d.from, strict)
  }

  ghost predicate SettingsDone(hs: seq<Desc>, id: nat, xs: seq<Setting>, ds: seq<Deed>, strict: bool) {
    |ds| == |xs| && forall k :: 0 <= k < |xs| ==> SettingDone(hs, id, xs[k], ds[k], strict)
  }

  ghost predicate ChangeDone(hs: seq<Desc>, x: Change, d: Deed) {
    d.Wrote? && d.field == x.field && FromRight(hs, x.value, d.from, true) &&
    exists i: nat :: IsThe(hs, x.header, i) && d.id == hs[i].tag
  }

  /** The next-header field of header `id` is made to name a header of type p. */
  predicate Names(d: Deed, id: nat, proto: Proto, p: Proto) {
    d.Wrote? && d.id == id && d.field == Next && d.from.Code? && CodeOf(FamilyOf(proto), p) == Some(d.from.code)
  }

  /** The next-header field of a header added at k: none, the user's business, the name of what follows, or, at the
      end, what the header before said of the payload. */
  predicate OwnDone(hs: seq<Desc>, k: nat, stage: Stage, id: nat, own: seq<Deed>)
    requires k <= |hs| && stage.AddStage?
  {
    if FamilyOf(stage.proto) == NoFamily || exists x :: x in stage.settings && x.field == Next then own == []
    else if k < |hs| then |own| == 1 && Names(own[0], id, stage.proto, hs[k].proto)
    else k > 0 && own == [Wrote(id, Next, Header(hs[k - 1].tag))]
  }

  /** The header before it, if there is one that can, names the new one. */
  predicate PreviousDone(hs: seq<Desc>, k: nat, proto: Proto, previous: seq<Deed>)
    requires k <= |hs|
  {
    if k == 0 || FamilyOf(hs[k - 1].proto) == NoFamily then previous == []
    else |previous| == 1 && Names(previous[0], hs[k - 1].tag, hs[k - 1].proto, proto)
  }

  /** Automatic writes: default bytes, the new header's next-header field, that of the one before. */
  ghost predicate AutoDone(hs: seq<Desc>, k: nat, stage: Stage, id: nat, auto: seq<Deed>)
    requires k <= |hs| && stage.AddStage?
  {
    exists own, previous :: OwnDone(hs, k, stage, id, own) && PreviousDone(hs, k, stage.proto, previous) &&
      auto == (if HasDefault(stage.proto) then [Defaulted(id)] else []) + own + previous
  }

  function Numbering(proto: Proto, id: nat): seq<Deed> {
    (if HasSeq(proto) then [Acted(WriteSeq, id, None)] else []) +
    (if HasTstamp(proto) then [Acted(WriteTstamp, id, None)] else [])
  }

  /** The new header stands directly behind or in front of the named one, all others keep their order; it is numbered
      or stamped, written automatically, and then as the user says. */
  ghost predicate AddDone(hs: seq<Desc>, i: nat, stage: Stage, id: nat, hs': seq<Desc>, auto: seq<Deed>,
                          user: seq<Deed>, ds: seq<Deed>, strict: bool)
    requires stage.AddStage?
  {
    IsThe(hs, stage.pos, i) &&
    var k := if stage.after then i + 1 else i;
    hs' == hs[..k] + [Desc(stage.name, stage.proto, id)] + hs[k..] &&
    ds == Numbering(stage.proto, id) + (auto + user) && AutoDone(hs, k, stage, id, auto) &&
    SettingsDone(hs, id, stage.settings, user, strict)
  }

  ghost predicate DelDone(hs: seq<Desc>, name: string, i: nat, hs': seq<Desc>, auto: seq<Deed>, ds: seq<Deed>) {
    IsThe(hs, name, i) && hs' == hs[..i] + hs[i + 1..] &&
    ds == (if HasSeq(hs[i].proto) then [Acted(FilterOam, hs[i].tag, None)] else []) + auto && GapDone(hs, i, auto)
  }

  /** The header before a deleted one, if there is one that can, names what comes next, or says of the payload what
      the deleted one said. */
  predicate GapDone(hs: seq<Desc>, i: nat, auto: seq<Deed>)
    requires i < |hs|
  {
    if i == 0 || FamilyOf(hs[i - 1].proto) == NoFamily then auto == []
    else if i + 1 < |hs| then |auto| == 1 && Names(auto[0], hs[i - 1].tag, hs[i - 1].proto, hs[i + 1].proto)
    else auto == [Wrote(hs[i - 1].tag, Next, Header(hs[i].tag))]
  }

  predicate Ip(d: Desc) { d.proto == IPv4 || d.proto == IPv6 }

  /** The nearest IP header before i. */
  predicate NearestIp(hs: seq<Desc>, i: nat, j: nat) {
    j < i <= |hs| && Ip(hs[j]) && forall k :: j < k < i ==> !Ip(hs[k])
  }

  predicate FirstPayload(hs: seq<Desc>, j: nat) {
    j < |hs| && hs[j].proto == Payload && forall k :: 0 <= k < j ==> hs[k].proto != Payload
  }

  /** The second header of an action: a checksum above IP needs the IP header, a length needs the payload. */
  ghost predicate OtherRight(hs: seq<Desc>, kind: Kind, i: nat, other: Option<nat>)
    requires i < |hs|
  {
    if (kind == Checksum || kind == Verify) && hs[i].proto != IPv4 then
      exists j: nat :: NearestIp(hs, i, j) && other == Some(hs[j].tag)
    else if kind == SetLength then
      if exists j: nat :: FirstPayload(hs, j)
      then exists j: nat :: FirstPayload(hs, j) && other == Some(hs[j].tag) else other == Some(0)
    else other == None
  }

  ghost predicate FieldDone(hs: seq<Desc>, kind: Kind, name: string, i: nat, other: Option<nat>, ds: seq<Deed>) {
    IsThe(hs, name, i) && ds == [Acted(kind, hs[i].tag, other)] && OtherRight(hs, kind, i, other)
  }

  /** Stage by stage: the header list afterwards and what was done on the way. */
  ghost predicate StageDone(hs: seq<Desc>, id: nat, stage: Stage, hs': seq<Desc>, ds: seq<Deed>, strict: bool) {
    match stage
    case AddStage(_, _, _, _, _) =>
      exists i: nat, auto, user :: AddDone(hs, i, stage, id, hs', auto, user, ds, strict)
    case DelStage(name) => exists i: nat, auto :: DelDone(hs, name, i, hs', auto, ds)
    case EditStage(xs) => hs' == hs && |ds| == |xs| && forall k :: 0 <= k < |xs| ==> ChangeDone(hs, xs[k], ds[k])
    case FieldStage(kind, name) => hs' == hs && exists i: nat, other :: FieldDone(hs, kind, name, i, other, ds)
    case PlainStage(what) => hs' == hs && (ds == [Did(what)] || (what == Send && ds == [Did(TtlCheck), Did(Send)]))
    case _ => false
  }

  // ----- the packet -----

  function IdAt(items: seq<Item>, i: nat): nat { if i < |items| then items[i].tag else 0 }

  function DeedOf(items: seq<Item>, a: Assign, strict: bool): Deed {
    match a
    case SetDefault(dst) => Defaulted(IdAt(items, dst.idx))
    case Write(dst, field, Value(code), _) => Wrote(IdAt(items, dst.idx), field, Code(code))
    case Write(dst, field, FieldOf(src), inAdd) =>
      Wrote(IdAt(items, dst.idx), field, if inAdd && !strict then Untold else Header(IdAt(items, src.idx)))
  }

  function DeedsOf(items: seq<Item>, assigns: seq<Assign>, strict: bool): (ds: seq<Deed>)
    ensures |ds| == |assigns| && forall i :: 0 <= i < |assigns| ==> ds[i] == DeedOf(items, assigns[i], strict)
  {
    seq(|assigns|, i requires 0 <= i < |assigns| => DeedOf(items, assigns[i], strict))
  }

  /** What an action does, as seen on the packet: the indices decide, not what the compiler meant by them. */
  function DeedsAt(items: seq<Item>, a: Action, strict: bool): seq<Deed> {
    match a
    case EditHdr(assigns) => DeedsOf(items, assigns, strict)
    case OnField(kind, hdr, other) =>
      [Acted(kind, IdAt(items, hdr.idx), if other.None? then None else Some(IdAt(items, other.value.idx)))]
    case Do(what) => [Did(what)]
    case _ => []
  }

  function Deeds(m: Path, acts: seq<Action>, strict: bool, fill: nat -> nat): seq<Deed>
    decreases |acts|
  {
    if acts == [] then []
    else DeedsAt(m.items, acts[0], strict) + Deeds(Exec(m, acts[0], fill), acts[1..], strict, fill)
  }

  // ----- what the compiler means -----

  function Meant(a: Assign, strict: bool): Deed {
    match a
    case SetDefault(dst) => Defaulted(dst.tag)
    case Write(dst, field, Value(code), _) => Wrote(dst.tag, field, Code(code))
    case Write(dst, field, FieldOf(src), inAdd) =>
      Wrote(dst.tag, field, if inAdd && !strict then Untold else Header(src.tag))
  }

  function MeantAll(assigns: seq<Assign>, strict: bool): (ds: seq<Deed>)
    ensures |ds| == |assigns| && forall i :: 0 <= i < |assigns| ==> ds[i] == Meant(assigns[i], strict)
  {
    seq(|assigns|, i requires 0 <= i < |assigns| => Meant(assigns[i], strict))
  }

  function MeantAt(a: Action, strict: bool): seq<Deed> {
    match a
    case EditHdr(assigns) => MeantAll(assigns, strict)
    case OnField(kind, hdr, other) =>
      [Acted(kind, hdr.tag, if other.None? then None else Some(other.value.tag))]
    case Do(what) => [Did(what)]
    case _ => []
  }

  function MeantBy(acts: seq<Action>, strict: bool): seq<Deed>
    decreases |acts|
  {
    if acts == [] then [] else MeantAt(acts[0], strict) + MeantBy(acts[1..], strict)
  }

  lemma {:induction false} AsMeant(m: Path, acts: seq<Action>, strict: bool, fill: nat -> nat)
    requires Sound(m, acts, strict, fill)
    ensures Deeds(m, acts, strict, fill) == MeantBy(acts, strict)
    decreases |acts|
  {
    if acts != [] {
      AsMeant(Exec(m, acts[0], fill), acts[1..], strict, fill);
      if acts[0].EditHdr? { AssignsAsMeant(m.items, acts[0].assigns, strict); }
    }
  }

  lemma {:induction false} AssignsAsMeant(items: seq<Item>, assigns: seq<Assign>, strict: bool)
    requires AssignsOk(items, assigns, strict)
    ensures DeedsOf(items, assigns, strict) == MeantAll(assigns, strict)
  {
    forall i | 0 <= i < |assigns|
      ensures DeedsOf(items, assigns, strict)[i] == MeantAll(assigns, strict)[i]
    {
      assert AssignOk(items, assigns[i], strict);
    }
  }

  lemma {:induction false} MeantAppend(a: seq<Action>, b: seq<Action>, strict: bool)
    ensures MeantBy(a + b, strict) == MeantBy(a, strict) + MeantBy(b, strict)
    decreases |a|
  {
    if a == [] {
      assert a + b == b;
    } else {
      assert (a + b)[1..] == a[1..] + b;
      MeantAppend(a[1..], b, strict);
    }
  }

  lemma {:induction false} MeantOne(a: Action, strict: bool)
    ensures MeantBy([a], strict) == MeantAt(a, strict)
  {
    assert [a][1..] == [] && MeantBy([], strict) == [];
  }

  lemma {:induction false} MeantEdit(assigns: seq<Assign>, strict: bool)
    ensures MeantBy(EditOf(assigns), strict) == MeantAll(assigns, strict)
  {
    if assigns != [] { MeantOne(EditHdr(assigns), strict); }
  }

  // ----- each stage -----

  lemma {:induction false} Named(hs: seq<Desc>, name: string)
    requires Find(hs, name).Some?
    ensures IsThe(hs, name, Find(hs, name).value)
  {
    FindIsUnique(hs, name, Find(hs, name).value);
  }

  lemma {:induction false} SourceRight(hs: seq<Desc>, field: FieldKind, value: Source, dst: Ref, inAdd: bool,
                                       strict: bool)
    requires Resolve(hs, field, value).Some?
    ensures var d := Meant(Write(dst, field, Resolve(hs, field, value).value, inAdd), strict);
            d.Wrote? && d.id == dst.tag && d.field == field && FromRight(hs, value, d.from, strict || !inAdd)
  {
    if value.OfHeader? { Named(hs, value.name); }
  }

  lemma {:induction false} UserDone(hs: seq<Desc>, me: Ref, proto: Proto, xs: seq<Setting>, n: nat, strict: bool)
    requires n <= |xs| && UserAssigns(hs, me, proto, xs, n).Some?
    ensures SettingsDone(hs, me.tag, xs[..n], MeantAll(UserAssigns(hs, me, proto, xs, n).value, strict), strict)
    decreases n
  {
    if n > 0 {
      var x, before := xs[n - 1], UserAssigns(hs, me, proto, xs, n - 1).value;
      UserDone(hs, me, proto, xs, n - 1, strict);
      SourceRight(hs, x.field, x.value, me, true, strict);
      var ds := MeantAll(UserAssigns(hs, me, proto, xs, n).value, strict);
      forall k | 0 <= k < n
        ensures SettingDone(hs, me.tag, xs[..n][k], ds[k], strict)
      {
        if k < n - 1 { assert SettingDone(hs, me.tag, xs[..n - 1][k], MeantAll(before, strict)[k], strict); }
      }
    }
  }

  lemma {:induction false} MeantConcat(a: seq<Assign>, b: seq<Assign>, strict: bool)
    ensures MeantAll(a + b, strict) == MeantAll(a, strict) + MeantAll(b, strict)
  {
  }

  lemma {:induction false} AutoIsDone(hs: seq<Desc>, k: nat, me: Ref, stage: Stage, strict: bool)
    requires k <= |hs| && stage.AddStage? && NextOfPrevious(hs, k, stage.proto).Some?
    requires NextOfNew(hs, k, me, stage.proto, SetsNext(stage.settings)).Some?
    ensures var auto := DefaultBytes(me, stage.proto) +
                        NextOfNew(hs, k, me, stage.proto, SetsNext(stage.settings)).value +
                        NextOfPrevious(hs, k, stage.proto).value;
            AutoDone(hs, k, stage, me.tag, MeantAll(auto, strict))
  {
    var a, b := DefaultBytes(me, stage.proto), NextOfNew(hs, k, me, stage.proto, SetsNext(stage.settings)).value;
    var c := NextOfPrevious(hs, k, stage.proto).value;
    MeantConcat(a + b, c, strict);
    MeantConcat(a, b, strict);
    assert SetsNext(stage.settings) <==> exists x :: x in stage.settings && x.field == Next;
    assert OwnDone(hs, k, stage, me.tag, MeantAll(b, strict));
    assert PreviousDone(hs, k, stage.proto, MeantAll(c, strict));
    assert MeantAll(a, strict) == if HasDefault(stage.proto) then [Defaulted(me.tag)] else [];
  }

  lemma {:induction false} MetaMeant(seqSet: bool, me: Ref, proto: Proto, strict: bool)
    requires MetaActions(seqSet, me, proto).Some?
    ensures MeantBy(MetaActions(seqSet, me, proto).value, strict) == Numbering(proto, me.tag)
  {
    var a := if HasSeq(proto) then [OnField(WriteSeq, me, None)] else [];
    var b := if HasTstamp(proto) then [OnField(WriteTstamp, me, None)] else [];
    MeantAppend(a, b, strict);
    MeantOne(OnField(WriteSeq, me, None), strict);
    MeantOne(OnField(WriteTstamp, me, None), strict);
  }

  lemma {:induction false} AddMeant(add: Action, meta: seq<Action>, assigns: seq<Assign>, strict: bool)
    requires add.AddHdr?
    ensures MeantBy([add] + meta + EditOf(assigns), strict) == MeantBy(meta, strict) + MeantAll(assigns, strict)
  {
    MeantAppend([add] + meta, EditOf(assigns), strict);
    MeantAppend([add], meta, strict);
    MeantOne(add, strict);
    MeantEdit(assigns, strict);
  }

  lemma {:induction false} AddEmits(s: State, stage: Stage, k: nat, me: Ref)
    requires stage.AddStage? && EmitAdd(s, stage).Some? && AddIndex(s.headers, stage) == Some(k)
    requires me == Ref(k, s.nextTag)
    ensures MetaActions(s.seqSet, me, stage.proto).Some? && AddAssigns(s.headers, k, me, stage).Some?
    ensures var e := EmitAdd(s, stage).value;
            e.state.headers == Insert(s.headers, k, Desc(stage.name, stage.proto, s.nextTag)) &&
            e.acts == [AddHdr(k, stage.proto, s.nextTag)] + MetaActions(s.seqSet, me, stage.proto).value +
                      EditOf(AddAssigns(s.headers, k, me, stage).value)
  {
  }

  lemma {:induction false} AddParts(hs: seq<Desc>, stage: Stage, k: nat, me: Ref)
    requires stage.AddStage? && k <= |hs| && AddAssigns(hs, k, me, stage).Some?
    ensures NextOfNew(hs, k, me, stage.proto, SetsNext(stage.settings)).Some?
    ensures NextOfPrevious(hs, k, stage.proto).Some?
    ensures UserAssigns(hs, me, stage.proto, stage.settings, |stage.settings|).Some?
    ensures AddAssigns(hs, k, me, stage).value ==
            DefaultBytes(me, stage.proto) + NextOfNew(hs, k, me, stage.proto, SetsNext(stage.settings)).value +
            NextOfPrevious(hs, k, stage.proto).value +
            UserAssigns(hs, me, stage.proto, stage.settings, |stage.settings|).value
  {
  }

  lemma {:induction false} AddStageDone(s: State, stage: Stage, strict: bool)
    requires stage.AddStage? && EmitAdd(s, stage).Some?
    ensures var e := EmitAdd(s, stage).value;
            StageDone(s.headers, s.nextTag, stage, e.state.headers, MeantBy(e.acts, strict), strict)
  {
    var hs, id, i := s.headers, s.nextTag, Find(s.headers, stage.pos).value;
    var k := if stage.after then i + 1 else i;
    var me, n := Ref(k, id), |stage.settings|;
    AddEmits(s, stage, k, me);
    AddParts(hs, stage, k, me);
    var user := UserAssigns(hs, me, stage.proto, stage.settings, n).value;
    var auto := DefaultBytes(me, stage.proto) + NextOfNew(hs, k, me, stage.proto, SetsNext(stage.settings)).value +
                NextOfPrevious(hs, k, stage.proto).value;
    Named(hs, stage.pos);
    UserDone(hs, me, stage.proto, stage.settings, n, strict);
    assert stage.settings[..n] == stage.settings;
    AutoIsDone(hs, k, me, stage, strict);
    AddDeeds(s.seqSet, me, stage.proto, auto, user, strict);
    assert AddDone(hs, i, stage, id, EmitAdd(s, stage).value.state.headers, MeantAll(auto, strict),
                   MeantAll(user, strict), MeantBy(EmitAdd(s, stage).value.acts, strict), strict);
  }

  lemma {:induction false} AddDeeds(seqSet: bool, me: Ref, proto: Proto, auto: seq<Assign>, user: seq<Assign>,
                                    strict: bool)
    requires MetaActions(seqSet, me, proto).Some?
    ensures MeantBy([AddHdr(me.idx, proto, me.tag)] + MetaActions(seqSet, me, proto).value + EditOf(auto + user),
                    strict) == Numbering(proto, me.tag) + (MeantAll(auto, strict) + MeantAll(user, strict))
  {
    MetaMeant(seqSet, me, proto, strict);
    AddMeant(AddHdr(me.idx, proto, me.tag), MetaActions(seqSet, me, proto).value, auto + user, strict);
    MeantConcat(auto, user, strict);
  }

  lemma {:induction false} DelStageDone(s: State, name: string, strict: bool)
    requires EmitDel(s, name).Some?
    ensures var e := EmitDel(s, name).value;
            StageDone(s.headers, s.nextTag, DelStage(name), e.state.headers, MeantBy(e.acts, strict), strict)
  {
    var hs, i := s.headers, Find(s.headers, name).value;
    var hdr, next := RefTo(hs, i), NextAfterDelete(hs, i).value;
    Named(hs, name);
    GapIsDone(hs, i, strict);
    DelDeeds(hdr, hs[i].proto, next, strict);
    assert DelDone(hs, name, i, EmitDel(s, name).value.state.headers, MeantAll(next, strict),
                   MeantBy(EmitDel(s, name).value.acts, strict));
  }

  lemma {:induction false} GapIsDone(hs: seq<Desc>, i: nat, strict: bool)
    requires i < |hs| && NextAfterDelete(hs, i).Some?
    ensures GapDone(hs, i, MeantAll(NextAfterDelete(hs, i).value, strict))
  {
  }

  lemma {:induction false} DelDeeds(hdr: Ref, proto: Proto, next: seq<Assign>, strict: bool)
    ensures MeantBy(FilterBefore(hdr, proto) + EditOf(next) + [DelHdr(hdr)], strict) ==
            (if HasSeq(proto) then [Acted(FilterOam, hdr.tag, None)] else []) + MeantAll(next, strict)
  {
    MeantAppend(FilterBefore(hdr, proto) + EditOf(next), [DelHdr(hdr)], strict);
    MeantAppend(FilterBefore(hdr, proto), EditOf(next), strict);
    MeantOne(DelHdr(hdr), strict);
    MeantOne(OnField(FilterOam, hdr, None), strict);
    MeantEdit(next, strict);
  }

  lemma {:induction false} ChangesDone(hs: seq<Desc>, xs: seq<Change>, n: nat, k: nat, strict: bool)
    requires k < n <= |xs| && Changes(hs, xs, n).Some?
    ensures ChangeDone(hs, xs[k], Meant(Changes(hs, xs, n).value[k], strict))
    decreases n
  {
    if k < n - 1 {
      ChangesDone(hs, xs, n - 1, k, strict);
    } else {
      var x := xs[k];
      Named(hs, x.header);
      SourceRight(hs, x.field, x.value, RefTo(hs, Find(hs, x.header).value), false, strict);
    }
  }

  lemma {:induction false} EditStageDone(s: State, xs: seq<Change>, strict: bool)
    requires EmitEdit(s, xs).Some?
    ensures var e := EmitEdit(s, xs).value;
            StageDone(s.headers, s.nextTag, EditStage(xs), e.state.headers, MeantBy(e.acts, strict), strict)
  {
    var assigns := Changes(s.headers, xs, |xs|).value;
    MeantOne(EditHdr(assigns), strict);
    forall k | 0 <= k < |xs|
      ensures ChangeDone(s.headers, xs[k], MeantAll(assigns, strict)[k])
    {
      ChangesDone(s.headers, xs, |xs|, k, strict);
    }
  }

  lemma {:induction false} PayloadRight(hs: seq<Desc>, i: nat)
    requires i <= |hs| && forall k :: 0 <= k < i ==> hs[k].proto != Payload
    ensures var r := PayloadFrom(hs, i);
            if r.idx < |hs| then FirstPayload(hs, r.idx) && r.tag == hs[r.idx].tag
            else r.tag == 0 && forall k :: 0 <= k < |hs| ==> hs[k].proto != Payload
    decreases |hs| - i
  {
    if i < |hs| && hs[i].proto != Payload { PayloadRight(hs, i + 1); }
  }

  lemma {:induction false} OtherIsRight(hs: seq<Desc>, kind: Kind, i: nat)
    requires i < |hs| && OtherHeader(hs, kind, i).Some?
    ensures var other := OtherHeader(hs, kind, i).value;
            OtherRight(hs, kind, i, if other.None? then None else Some(other.value.tag))
  {
    if NeedsIp(kind, hs[i].proto) {
      assert NearestIp(hs, i, LastIp(hs, i).value);
    } else if kind == SetLength {
      PayloadRight(hs, 0);
    }
  }

  lemma {:induction false} FieldStageDone(s: State, kind: Kind, name: string, strict: bool)
    requires EmitField(s, kind, name).Some?
    ensures var e := EmitField(s, kind, name).value;
            StageDone(s.headers, s.nextTag, FieldStage(kind, name), e.state.headers, MeantBy(e.acts, strict), strict)
  {
    var hs, i := s.headers, Find(s.headers, name).value;
    var other := OtherHeader(hs, kind, i).value;
    Named(hs, name);
    OtherIsRight(hs, kind, i);
    MeantOne(OnField(kind, RefTo(hs, i), other), strict);
    assert FieldDone(hs, kind, name, i, if other.None? then None else Some(other.value.tag),
                     MeantBy(EmitField(s, kind, name).value.acts, strict));
  }

  lemma {:induction false} PlainStageDone(s: State, what: Plain, strict: bool)
    requires EmitPlain(s, what).Some?
    ensures var e := EmitPlain(s, what).value;
            StageDone(s.headers, s.nextTag, PlainStage(what), e.state.headers, MeantBy(e.acts, strict), strict)
  {
    MeantOne(Do(what), strict);
    MeantOne(Do(TtlCheck), strict);
    assert [Do(TtlCheck), Do(Send)] == [Do(TtlCheck)] + [Do(Send)];
    MeantAppend([Do(TtlCheck)], [Do(Send)], strict);
  }

  function NextId(id: nat, stage: Stage): nat { if stage.AddStage? then id + 1 else id }

  /** The actions of a stage, run on a packet that shows the headers hs, do what it says and leave the packet showing
      hs'. */
  ghost predicate Performs(m: Path, acts: seq<Action>, hs: seq<Desc>, id: nat, stage: Stage, hs': seq<Desc>,
                           strict: bool, fill: nat -> nat) {
    Tracks(ExecAll(m, acts, fill).items, hs') &&
    StageDone(hs, id, stage, hs', Deeds(m, acts, strict, fill), strict)
  }

  lemma {:induction false} EmitPerforms(m: Path, s: State, stage: Stage, strict: bool, fill: nat -> nat)
    requires !Final(stage) && Emit(s, stage).Some? && Fits(m, s) && Fresh(s) && (strict ==> StageEarly(s, stage))
    ensures var e := Emit(s, stage).value;
            Performs(m, e.acts, s.headers, s.nextTag, stage, e.state.headers, strict, fill) &&
            e.state.nextTag == NextId(s.nextTag, stage)
  {
    EmitSound(m, s, stage, strict, fill);
    AsMeant(m, Emit(s, stage).value.acts, strict, fill);
    match stage
    case AddStage(_, _, _, _, _) => AddStageDone(s, stage, strict);
    case DelStage(header) => DelStageDone(s, header, strict);
    case EditStage(changes) => EditStageDone(s, changes, strict);
    case FieldStage(kind, header) => FieldStageDone(s, kind, header, strict);
    case PlainStage(what) => PlainStageDone(s, what, strict);
  }

  // ----- whole pipelines -----

  /** The actions fall into the parts of the stages, each of which does what its stage says on the packet as the parts
      before left it; a jump goes on with the other pipeline, a branch begins with the packet as it is. `left` bounds
      the nesting. */
  ghost predicate Obeys(env: Pipelines, left: nat, hs: seq<Desc>, id: nat, stages: seq<Stage>, m: Path,
                        acts: seq<Action>, strict: bool, fill: nat -> nat)
    decreases left, |stages|, 1
  {
    if stages == [] then acts == []
    else if Final(stages[0]) then |stages| == 1 && ObeysFinal(env, left, hs, id, stages[0], m, acts, strict, fill)
    else exists k: nat, hs' :: ObeysFirst(env, left, hs, id, stages, m, acts, k, hs', strict, fill)
  }

  ghost predicate ObeysFirst(env: Pipelines, left: nat, hs: seq<Desc>, id: nat, stages: seq<Stage>, m: Path,
                             acts: seq<Action>, k: nat, hs': seq<Desc>, strict: bool, fill: nat -> nat)
    requires stages != []
    decreases left, |stages|, 0
  {
    k <= |acts| && Performs(m, acts[..k], hs, id, stages[0], hs', strict, fill) &&
    Obeys(env, left, hs', NextId(id, stages[0]), stages[1..], ExecAll(m, acts[..k], fill), acts[k..], strict, fill)
  }

  ghost predicate ObeysFinal(env: Pipelines, left: nat, hs: seq<Desc>, id: nat, stage: Stage, m: Path,
                             acts: seq<Action>, strict: bool, fill: nat -> nat)
    decreases left, 0, 2
  {
    match stage
    case PlainStage(what) => acts == [Do(what)]
    case JumpStage(pipe) => ObeysPipe(env, left, hs, id, pipe, m, acts, strict, fill)
    case ElimStage(pipe) =>
      acts != [] && acts[0] == Elim && ObeysPipe(env, left, hs, id, pipe, m, acts[1..], strict, fill)
    case ReplStage(pipes) =>
      |acts| == 1 && acts[0].Repl? && |acts[0].branches| == |pipes| &&
      forall i :: 0 <= i < |pipes| ==> ObeysPipe(env, left, hs, id, pipes[i], m, acts[0].branches[i].acts, strict, fill)
    case _ => false
  }

  ghost predicate ObeysPipe(env: Pipelines, left: nat, hs: seq<Desc>, id: nat, pipe: string, m: Path,
                            acts: seq<Action>, strict: bool, fill: nat -> nat)
    decreases left, 0, 1
  {
    left > 0 && pipe in env && acts != [] && Obeys(env, left - 1, hs, id, env[pipe], m, acts, strict, fill)
  }

  /** Every pipeline that compiles, through inlined jumps and in every branch, on every packet that shows its headers:
      each stage does to the headers it names what it says. With the values that add stages take from other headers told
      as well, where those are taken from before the insertion. */
  lemma {:induction false} CompiledObeys(env: Pipelines, s: State, stages: seq<Stage>, m: Path, strict: bool,
                                         fill: nat -> nat)
    requires Compile(env, s, stages).Some? && Fits(m, s) && Fresh(s) && (strict ==> Careful(env, s, stages))
    ensures Obeys(env, Budget(s), s.headers, s.nextTag, stages, m, Compile(env, s, stages).value, strict, fill)
    decreases Budget(s), 2, |stages|
  {
    if stages != [] {
      if Final(stages[0]) {
        FinalObeys(env, s, stages[0], m, strict, fill);
      } else {
        var e, acts := Emit(s, stages[0]).value, Compile(env, s, stages).value;
        EmitPerforms(m, s, stages[0], strict, fill);
        EmitSound(m, s, stages[0], strict, fill);
        CompiledObeys(env, e.state, stages[1..], ExecAll(m, e.acts, fill), strict, fill);
        var rest := Compile(env, e.state, stages[1..]).value;
        PartsObey(env, s, stages, m, e, rest, strict, fill);
      }
    }
  }

  lemma {:induction false} PartsObey(env: Pipelines, s: State, stages: seq<Stage>, m: Path, e: Emitted,
                                     rest: seq<Action>, strict: bool, fill: nat -> nat)
    requires stages != [] && !Final(stages[0]) && e.state.depth == s.depth
    requires Performs(m, e.acts, s.headers, s.nextTag, stages[0], e.state.headers, strict, fill)
    requires e.state.nextTag == NextId(s.nextTag, stages[0])
    requires Obeys(env, Budget(e.state), e.state.headers, e.state.nextTag, stages[1..], ExecAll(m, e.acts, fill), rest,
                   strict, fill)
    ensures Obeys(env, Budget(s), s.headers, s.nextTag, stages, m, e.acts + rest, strict, fill)
  {
    var acts, k := e.acts + rest, |e.acts|;
    assert acts[..k] == e.acts && acts[k..] == rest;
    assert ObeysFirst(env, Budget(s), s.headers, s.nextTag, stages, m, acts, k, e.state.headers, strict, fill);
  }

  lemma {:induction false} PipeObeys(env: Pipelines, s: State, pipe: string, m: Path, strict: bool, fill: nat -> nat)
    requires Inlined(env, s, pipe).Some? && Fits(m, s) && Fresh(s) && (strict ==> CarefulPipe(env, s, pipe))
    ensures ObeysPipe(env, Budget(s), s.headers, s.nextTag, pipe, m, Inlined(env, s, pipe).value, strict, fill)
    decreases Budget(s), 0, 0
  {
    var t := s.(depth := s.depth + 1);
    PipeParts(env, s, pipe, t);
    assert Fits(m, t) && Fresh(t);
    CompiledObeys(env, t, env[pipe], m, strict, fill);
    Nested(env, Budget(t), s.headers, s.nextTag, pipe, m, Inlined(env, s, pipe).value, strict, fill);
  }

  lemma {:induction false} PipeParts(env: Pipelines, s: State, pipe: string, t: State)
    requires Inlined(env, s, pipe).Some? && t == s.(depth := s.depth + 1)
    ensures pipe in env && Compile(env, t, env[pipe]) == Inlined(env, s, pipe) && Inlined(env, s, pipe).value != []
    ensures Budget(s) == Budget(t) + 1
  {
  }

  lemma {:induction false} Nested(env: Pipelines, left: nat, hs: seq<Desc>, id: nat, pipe: string, m: Path,
                                  acts: seq<Action>, strict: bool, fill: nat -> nat)
    requires pipe in env && acts != [] && Obeys(env, left, hs, id, env[pipe], m, acts, strict, fill)
    ensures ObeysPipe(env, left + 1, hs, id, pipe, m, acts, strict, fill)
  {
  }

  lemma {:induction false} BranchObeys(env: Pipelines, s: State, pipes: seq<string>, i: nat, m: Path, strict: bool,
                                       fill: nat -> nat)
    requires i < |pipes| && Branches(env, s, pipes, |pipes|).Some? && Fits(m, s) && Fresh(s)
    requires strict ==> CarefulPipe(env, Copied(s), pipes[i])
    ensures ObeysPipe(env, Budget(s), s.headers, s.nextTag, pipes[i], m,
                      Branches(env, s, pipes, |pipes|).value[i].acts, strict, fill)
    decreases Budget(s), 0, 1
  {
    BranchAt(env, s, pipes, |pipes|, i);
    PipeObeys(env, Copied(s), pipes[i], m, strict, fill);
  }

  lemma {:induction false} FinalObeys(env: Pipelines, s: State, stage: Stage, m: Path, strict: bool, fill: nat -> nat)
    requires Final(stage) && CompileFinal(env, s, stage).Some? && Fits(m, s) && Fresh(s)
    requires strict ==> CarefulFinal(env, s, stage)
    ensures ObeysFinal(env, Budget(s), s.headers, s.nextTag, stage, m, CompileFinal(env, s, stage).value, strict, fill)
    decreases Budget(s), 1, 0
  {
    match stage
    case PlainStage(_) =>
    case JumpStage(pipe) => PipeObeys(env, s, pipe, m, strict, fill);
    case ElimStage(pipe) =>
      PipeObeys(env, s, pipe, m, strict, fill);
      assert ([Elim] + Inlined(env, s, pipe).value)[1..] == Inlined(env, s, pipe).value;
    case ReplStage(pipes) =>
      forall i | 0 <= i < |pipes|
        ensures ObeysPipe(env, Budget(s), s.headers, s.nextTag, pipes[i], m,
                          Branches(env, s, pipes, |pipes|).value[i].acts, strict, fill)
      {
        BranchObeys(env, s, pipes, i, m, strict, fill);
      }
  }

  /** A whole stream, from the names and types it declares. */
  lemma {:induction false} StreamObeys(env: Pipelines, headers: seq<(string, Proto)>, stages: seq<Stage>,
                                       items: seq<Item>, strict: bool, fill: nat -> nat)
    requires CompileStream(env, headers, stages).Some? && Tracks(items, Tagged(headers, |headers|))
    requires strict ==> Careful(env, Start(headers), stages)
    ensures var acts, auto := CompileStream(env, headers, stages).value, AutoReduce(headers);
            auto <= acts &&
            Obeys(env, Budget(Start(headers)), Tagged(headers, |headers|), |headers| + 1, stages,
                  ExecAll(Arrived(items), auto, fill), acts[|auto|..], strict, fill)
  {
    var s, auto := Start(headers), AutoReduce(headers);
    StartFresh(headers);
    AutoSound(headers, items, strict, fill);
    CompiledObeys(env, s, stages, ExecAll(Arrived(items), auto, fill), strict, fill);
    assert (auto + Compile(env, s, stages).value)[|auto|..] == Compile(env, s, stages).value;
  }

  // ----- the pending TTL check -----

  /** A send is preceded by a check exactly while one is pending, and after it none is. */
  lemma {:induction false} SendChecks(s: State)
    requires EmitPlain(s, Send).Some?
    ensures var e := EmitPlain(s, Send).value;
            e.acts == (if s.due == NoCheck then [Do(Send)] else [Do(TtlCheck), Do(Send)]) && e.state.due == NoCheck
  {
  }

  /** Deleting the header whose TTL was to be checked cancels the check, deleting another does not. */
  lemma {:induction false} DeleteCancels(s: State, name: string, i: nat)
    requires IsThe(s.headers, name, i) && EmitDel(s, name).Some?
    ensures EmitDel(s, name).value.state.due == if s.due == Due(s.headers[i].tag) then NoCheck else s.due
  {
    Found(s.headers, name, i);
  }

  // ----- which stages are accepted -----

  ghost predicate SourceAllowed(hs: seq<Desc>, field: FieldKind, value: Source) {
    match value
    case Literal(_) => true
    case OfHeader(name) => exists i: nat :: IsThe(hs, name, i) && (field == Next ==> FamilyOf(hs[i].proto) != NoFamily)
  }

  ghost predicate SettingAllowed(hs: seq<Desc>, proto: Proto, x: Setting) {
    (x.field == Next ==> FamilyOf(proto) != NoFamily) && SourceAllowed(hs, x.field, x.value)
  }

  /** A header of this type can be put at k: it can name what follows or take over what the last one said, and the one
      before can name it. */
  predicate Linkable(hs: seq<Desc>, k: nat, stage: Stage)
    requires k <= |hs| && stage.AddStage?
  {
    (FamilyOf(stage.proto) == NoFamily || (exists x :: x in stage.settings && x.field == Next) ||
     if k < |hs| then CodeOf(FamilyOf(stage.proto), hs[k].proto).Some?
     else k > 0 && FamilyOf(hs[k - 1].proto) == FamilyOf(stage.proto)) &&
    (k == 0 || FamilyOf(hs[k - 1].proto) == NoFamily || CodeOf(FamilyOf(hs[k - 1].proto), stage.proto).Some?)
  }

  ghost predicate AddAllowed(hs: seq<Desc>, seqSet: bool, stage: Stage, i: nat)
    requires stage.AddStage?
  {
    IsThe(hs, stage.pos, i) && Linkable(hs, if stage.after then i + 1 else i, stage) &&
    (HasSeq(stage.proto) ==> seqSet) &&
    forall k :: 0 <= k < |stage.settings| ==> SettingAllowed(hs, stage.proto, stage.settings[k])
  }

  /** The header before one that is deleted can name the one behind it, or take over what it said of the payload. */
  ghost predicate DelAllowed(hs: seq<Desc>, name: string, i: nat) {
    IsThe(hs, name, i) &&
    (i == 0 || FamilyOf(hs[i - 1].proto) == NoFamily ||
     if i + 1 < |hs| then CodeOf(FamilyOf(hs[i - 1].proto), hs[i + 1].proto).Some?
     else FamilyOf(hs[i - 1].proto) == FamilyOf(hs[i].proto))
  }

  ghost predicate ChangeAllowed(hs: seq<Desc>, x: Change) {
    SourceAllowed(hs, x.field, x.value) &&
    exists i: nat :: IsThe(hs, x.header, i) && (x.field == Next ==> FamilyOf(hs[i].proto) != NoFamily)
  }

  ghost predicate FieldAllowed(hs: seq<Desc>, seqSet: bool, kind: Kind, name: string, i: nat) {
    IsThe(hs, name, i) && HasField(kind, hs[i].proto) && (kind == WriteSeq ==> seqSet) &&
    ((kind == Checksum || kind == Verify) && hs[i].proto != IPv4 ==> exists j: nat :: NearestIp(hs, i, j))
  }

  ghost predicate Allowed(s: State, stage: Stage) {
    match stage
    case AddStage(_, _, _, _, _) => exists i: nat :: AddAllowed(s.headers, s.seqSet, stage, i)
    case DelStage(name) => exists i: nat :: DelAllowed(s.headers, name, i)
    case EditStage(xs) => xs != [] && forall k :: 0 <= k < |xs| ==> ChangeAllowed(s.headers, xs[k])
    case FieldStage(kind, name) => exists i: nat :: FieldAllowed(s.headers, s.seqSet, kind, name, i)
    case PlainStage(what) =>
      (what == Pof ==> s.seqSet) && (what == TtlCheck || (what == Send && s.due != NoCheck) ==> s.ttlSet)
    case _ => false
  }

  lemma {:induction false} Found(hs: seq<Desc>, name: string, i: nat)
    ensures IsThe(hs, name, i) <==> Find(hs, name) == Some(i)
  {
    FindIsUnique(hs, name, i);
  }

  lemma {:induction false} SourceExactly(hs: seq<Desc>, field: FieldKind, value: Source)
    ensures Resolve(hs, field, value).Some? <==> SourceAllowed(hs, field, value)
  {
    if value.OfHeader? {
      forall i: nat
        ensures IsThe(hs, value.name, i) <==> Find(hs, value.name) == Some(i)
      {
        Found(hs, value.name, i);
      }
    }
  }

  lemma {:induction false} UserExactly(hs: seq<Desc>, me: Ref, proto: Proto, xs: seq<Setting>, n: nat)
    requires n <= |xs|
    ensures UserAssigns(hs, me, proto, xs, n).Some? <==> forall k :: 0 <= k < n ==> SettingAllowed(hs, proto, xs[k])
    decreases n
  {
    if n > 0 {
      UserExactly(hs, me, proto, xs, n - 1);
      SourceExactly(hs, xs[n - 1].field, xs[n - 1].value);
    }
  }

  lemma {:induction false} LinkableExactly(hs: seq<Desc>, k: nat, me: Ref, stage: Stage)
    requires k <= |hs| && stage.AddStage?
    ensures Linkable(hs, k, stage) <==>
            NextOfNew(hs, k, me, stage.proto, SetsNext(stage.settings)).Some? &&
            NextOfPrevious(hs, k, stage.proto).Some?
  {
    assert SetsNext(stage.settings) <==> exists x :: x in stage.settings && x.field == Next;
  }

  lemma {:induction false} AddExactly(s: State, stage: Stage, i: nat)
    requires stage.AddStage? && IsThe(s.headers, stage.pos, i)
    ensures EmitAdd(s, stage).Some? <==> AddAllowed(s.headers, s.seqSet, stage, i)
  {
    var k := if stage.after then i + 1 else i;
    var me := Ref(k, s.nextTag);
    Found(s.headers, stage.pos, i);
    UserExactly(s.headers, me, stage.proto, stage.settings, |stage.settings|);
    LinkableExactly(s.headers, k, me, stage);
  }

  lemma {:induction false} DelExactly(s: State, name: string, i: nat)
    requires IsThe(s.headers, name, i)
    ensures EmitDel(s, name).Some? <==> DelAllowed(s.headers, name, i)
  {
    Found(s.headers, name, i);
  }

  lemma {:induction false} ChangesExactly(hs: seq<Desc>, xs: seq<Change>, n: nat)
    requires n <= |xs|
    ensures Changes(hs, xs, n).Some? <==> forall k :: 0 <= k < n ==> ChangeAllowed(hs, xs[k])
    decreases n
  {
    if n > 0 {
      ChangesExactly(hs, xs, n - 1);
      ChangeExactly(hs, xs[n - 1]);
    }
  }

  lemma {:induction false} ChangeExactly(hs: seq<Desc>, x: Change)
    ensures ChangeOf(hs, x).Some? <==> ChangeAllowed(hs, x)
  {
    SourceExactly(hs, x.field, x.value);
    forall i: nat
      ensures IsThe(hs, x.header, i) <==> Find(hs, x.header) == Some(i)
    {
      Found(hs, x.header, i);
    }
  }

  lemma {:induction false} IpExactly(hs: seq<Desc>, i: nat)
    requires i <= |hs|
    ensures LastIp(hs, i).Some? <==> exists j: nat :: NearestIp(hs, i, j)
  {
    if LastIp(hs, i).Some? { assert NearestIp(hs, i, LastIp(hs, i).value); }
  }

  lemma {:induction false} FieldExactly(s: State, kind: Kind, name: string, i: nat)
    requires IsThe(s.headers, name, i)
    ensures EmitField(s, kind, name).Some? <==> FieldAllowed(s.headers, s.seqSet, kind, name, i)
  {
    Found(s.headers, name, i);
    IpExactly(s.headers, i);
  }

  /** A stage is accepted exactly when the headers it names are there once and can take it. */
  lemma {:induction false} AcceptedExactly(s: State, stage: Stage)
    requires !Final(stage)
    ensures Emit(s, stage).Some? <==> Allowed(s, stage)
  {
    match stage
    case AddStage(pos, _, _, _, _) =>
      if i: nat :| IsThe(s.headers, pos, i) {
        AddExactly(s, stage, i);
      } else if Find(s.headers, pos).Some? {
        Named(s.headers, pos);
      }
    case DelStage(name) =>
      if i: nat :| IsThe(s.headers, name, i) {
        DelExactly(s, name, i);
      } else if Find(s.headers, name).Some? {
        Named(s.headers, name);
      }
    case EditStage(xs) => ChangesExactly(s.headers, xs, |xs|);
    case FieldStage(kind, name) =>
      if i: nat :| IsThe(s.headers, name, i) {
        FieldExactly(s, kind, name, i);
      } else if Find(s.headers, name).Some? {
        Named(s.headers, name);
      }
    case PlainStage(_) =>
  }

  /** Nothing follows a final stage, targets are defined and not empty, and nest at most 11 deep. */
  ghost predicate Acceptable(env: Pipelines, s: State, stages: seq<Stage>)
    decreases Budget(s), 2, |stages|
  {
    stages == [] ||
    if Final(stages[0]) then |stages| == 1 && FinalAllowed(env, s, stages[0])
    else
      Allowed(s, stages[0]) && var e := Emit(s, stages[0]); e.Some? && Acceptable(env, e.value.state, stages[1..])
  }

  ghost predicate FinalAllowed(env: Pipelines, s: State, stage: Stage)
    decreases Budget(s), 1, 0
  {
    match stage
    case JumpStage(pipe) => PipeAllowed(env, s, pipe)
    case ElimStage(pipe) => s.seqSet && PipeAllowed(env, s, pipe)
    case ReplStage(pipes) => pipes != [] && forall i :: 0 <= i < |pipes| ==> PipeAllowed(env, Copied(s), pipes[i])
    case _ => stage == PlainStage(Drop)
  }

  ghost predicate PipeAllowed(env: Pipelines, s: State, pipe: string)
    decreases Budget(s), 0, 0
  {
    pipe in env && env[pipe] != [] && s.depth <= 10 && Acceptable(env, s.(depth := s.depth + 1), env[pipe])
  }

  lemma {:induction false} CompiledNotEmpty(env: Pipelines, s: State, stages: seq<Stage>)
    requires Compile(env, s, stages).Some?
    ensures Compile(env, s, stages).value == [] <==> stages == []
  {
    if stages != [] {
      if Final(stages[0]) { FinalNotEmpty(env, s, stages[0]); } else { EmittedNotEmpty(s, stages[0]); }
    }
  }

  lemma {:induction false} FinalNotEmpty(env: Pipelines, s: State, stage: Stage)
    requires Final(stage) && CompileFinal(env, s, stage).Some?
    ensures CompileFinal(env, s, stage).value != []
  {
    match stage
    case JumpStage(pipe) => assert Inlined(env, s, pipe) != Some([]);
    case _ =>
  }

  lemma {:induction false} EmittedNotEmpty(s: State, stage: Stage)
    requires !Final(stage) && Emit(s, stage).Some?
    ensures Emit(s, stage).value.acts != []
  {
  }

  /** A pipeline compiles exactly then. */
  lemma {:induction false} CompilesExactly(env: Pipelines, s: State, stages: seq<Stage>)
    ensures Compile(env, s, stages).Some? <==> Acceptable(env, s, stages)
    decreases Budget(s), 2, |stages|
  {
    if stages != [] {
      if Final(stages[0]) {
        FinalExactly(env, s, stages[0]);
      } else {
        AcceptedExactly(s, stages[0]);
        if Emit(s, stages[0]).Some? { CompilesExactly(env, Emit(s, stages[0]).value.state, stages[1..]); }
      }
    }
  }

  lemma {:induction false} PipeExactly(env: Pipelines, s: State, pipe: string)
    ensures Inlined(env, s, pipe).Some? <==> PipeAllowed(env, s, pipe)
    decreases Budget(s), 0, 0
  {
    if pipe in env && s.depth <= MAX_DEPTH {
      var t := s.(depth := s.depth + 1);
      CompilesExactly(env, t, env[pipe]);
      if Compile(env, t, env[pipe]).Some? { CompiledNotEmpty(env, t, env[pipe]); }
    }
  }

  lemma {:induction false} BranchStep(env: Pipelines, s: State, pipes: seq<string>, n: nat)
    requires 0 < n <= |pipes|
    ensures Branches(env, s, pipes, n).Some? <==>
            Branches(env, s, pipes, n - 1).Some? && Inlined(env, Copied(s), pipes[n - 1]).Some?
  {
  }

  ghost predicate PipesAllowed(env: Pipelines, t: State, pipes: seq<string>, n: nat)
    requires n <= |pipes|
  {
    forall i :: 0 <= i < n ==> PipeAllowed(env, t, pipes[i])
  }

  lemma {:induction false} BranchesExactly(env: Pipelines, s: State, pipes: seq<string>, n: nat)
    requires n <= |pipes|
    ensures Branches(env, s, pipes, n).Some? <==> PipesAllowed(env, Copied(s), pipes, n)
    decreases Budget(s), 0, n + 1
  {
    if n == 0 {
      assert Branches(env, s, pipes, 0).Some?;
    } else {
      BranchStep(env, s, pipes, n);
      BranchesExactly(env, s, pipes, n - 1);
      PipeExactly(env, Copied(s), pipes[n - 1]);
      OneMore(env, Copied(s), pipes, n);
    }
  }

  lemma {:induction false} OneMore(env: Pipelines, t: State, pipes: seq<string>, n: nat)
    requires 0 < n <= |pipes|
    ensures PipesAllowed(env, t, pipes, n) <==>
            PipesAllowed(env, t, pipes, n - 1) && PipeAllowed(env, t, pipes[n - 1])
  {
  }

  lemma {:induction false} FinalExactly(env: Pipelines, s: State, stage: Stage)
    requires Final(stage)
    ensures CompileFinal(env, s, stage).Some? <==> FinalAllowed(env, s, stage)
    decreases Budget(s), 1, 0
  {
    match stage
    case PlainStage(_) =>
    case JumpStage(pipe) => PipeExactly(env, s, pipe);
    case ElimStage(pipe) => PipeExactly(env, s, pipe);
    case ReplStage(pipes) => BranchesExactly(env, s, pipes, |pipes|);
  }
}
