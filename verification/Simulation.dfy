/** The header list that the compiler keeps is the header list of the packet, at every action. */
module Simulation {
  import opened Basics
  import opened Protocols
  import opened Actions
  import opened Compiler
  import PacketLayout
  import StreamMatch

  /** Tags are distinct, non-zero and below the next one. */
  ghost predicate Fresh(s: State) {
    s.nextTag > 0 && (forall i :: 0 <= i < |s.headers| ==> 0 < s.headers[i].tag < s.nextTag) &&
    (forall i, j :: 0 <= i < j < |s.headers| ==> s.headers[i].tag != s.headers[j].tag) &&
    (s.due != NoCheck ==> s.ttlSet)
  }

  predicate Matches(it: Item, d: Desc) { it.tag == d.tag && it.proto == d.proto }

  /** The packet's headers are the compiler's, in type and identity, with the payload behind them. */
  ghost predicate Tracks(items: seq<Item>, headers: seq<Desc>) {
    |items| == |headers| + 1 && items[|headers|].tag == 0 && items[|headers|].proto == Payload &&
    forall i :: 0 <= i < |headers| ==> Matches(items[i], headers[i])
  }

  ghost predicate Fits(m: Path, s: State) {
    Tracks(m.items, s.headers) && m.seqSet == s.seqSet && m.ttlSet == s.ttlSet && m.owed == None &&
           DueKept(m.due, s.due)
  }

  /** The compiler remembers a check that the packet still needs. */
  predicate DueKept(due: Option<nat>, check: Check) {
    due.Some? ==> check == Due(due.value) || check == DueOutside
  }

  ghost predicate SameHeaders(a: seq<Item>, b: seq<Item>) {
    |a| == |b| && forall i :: 0 <= i < |a| ==> a[i].tag == b[i].tag && a[i].proto == b[i].proto
  }

  lemma {:induction false} AssignKeepsHeaders(items: seq<Item>, a: Assign)
    ensures SameHeaders(items, Assigned(items, a))
  {
  }

  lemma {:induction false} AssignsKeepHeaders(items: seq<Item>, assigns: seq<Assign>)
    ensures SameHeaders(items, AssignedAll(items, assigns))
    decreases |assigns|
  {
    if assigns != [] {
      AssignKeepsHeaders(items, assigns[0]);
      AssignsKeepHeaders(Assigned(items, assigns[0]), assigns[1..]);
    }
  }

  lemma {:induction false} TracksSame(items: seq<Item>, items': seq<Item>, headers: seq<Desc>)
    requires Tracks(items, headers) && SameHeaders(items, items')
    ensures Tracks(items', headers)
  {
    forall i | 0 <= i < |headers|
      ensures Matches(items'[i], headers[i])
    {
      assert Matches(items[i], headers[i]);
    }
  }

  lemma {:induction false} RefRight(items: seq<Item>, headers: seq<Desc>, i: nat)
    requires Tracks(items, headers) && i < |headers|
    ensures RefOk(items, RefTo(headers, i))
  {
    assert Matches(items[i], headers[i]);
  }

  // ----- one action -----

  lemma {:induction false} SoundOne(m: Path, a: Action, strict: bool, fill: nat -> nat)
    requires !EndsPath(a)
    ensures Sound(m, [a], strict, fill) <==> ActionOk(m, a, strict)
    ensures ExecAll(m, [a], fill) == Exec(m, a, fill)
  {
    assert [a][1..] == [];
  }

  /** An edit, present or left out for want of assignments. */
  lemma {:induction false} EditSound(m: Path, assigns: seq<Assign>, headers: seq<Desc>, strict: bool, fill: nat -> nat)
    requires Tracks(m.items, headers) && m.owed.None?
    ensures Sound(m, EditOf(assigns), strict, fill) <==> AssignsOk(m.items, assigns, strict)
    ensures var m' := ExecAll(m, EditOf(assigns), fill); Tracks(m'.items, headers) && m' == m.(items := m'.items)
  {
    if assigns != [] {
      SoundOne(m, EditHdr(assigns), strict, fill);
      AssignsKeepHeaders(m.items, assigns);
      TracksSame(m.items, AssignedAll(m.items, assigns), headers);
    }
  }

  lemma {:induction false} AssignsAppend(items: seq<Item>, a: seq<Assign>, b: seq<Assign>, strict: bool)
    ensures AssignsOk(items, a + b, strict) <==> AssignsOk(items, a, strict) && AssignsOk(items, b, strict)
  {
    if AssignsOk(items, a + b, strict) {
      assert forall i :: 0 <= i < |a| ==> (a + b)[i] == a[i];
      forall i | 0 <= i < |b|
        ensures AssignOk(items, b[i], strict)
      {
        assert (a + b)[|a| + i] == b[i];
      }
    }
  }

  lemma {:induction false} FromAppend(m: Path, a: seq<Action>, b: seq<Action>, strict: bool, fill: nat -> nat)
    requires (forall i :: 0 <= i < |a| ==> !EndsPath(a[i]))
    ensures Sound(m, a + b, strict, fill) <==> Sound(m, a, strict, fill) && Sound(ExecAll(m, a, fill), b, strict, fill)
    ensures ExecAll(m, a + b, fill) == ExecAll(ExecAll(m, a, fill), b, fill)
  {
    SoundAppend(m, a, b, strict, fill);
    ExecAppend(m, a, b, fill);
  }

  // ----- add -----

  lemma {:induction false} InsertTracks(items: seq<Item>, headers: seq<Desc>, i: nat, it: Item, d: Desc)
    requires Tracks(items, headers) && i <= |headers| && Matches(it, d)
    ensures Tracks(Insert(items, i, it), Insert(headers, i, d))
  {
    var items', headers' := Insert(items, i, it), Insert(headers, i, d);
    forall j | 0 <= j < |headers'|
      ensures Matches(items'[j], headers'[j])
    {
      if j < i { assert Matches(items[j], headers[j]); }
      if j > i { assert Matches(items[j - 1], headers[j - 1]); }
    }
  }

  /** A header index taken before the insertion is right afterwards exactly when it lies before it. */
  lemma {:induction false} IndexAfterInsert(items: seq<Item>, s: State, i: nat, it: Item, j: nat)
    requires Tracks(items, s.headers) && Fresh(s) && i <= |s.headers| && it.tag == s.nextTag && j < |s.headers|
    ensures RefOk(Insert(items, i, it), RefTo(s.headers, j)) <==> j < i
  {
    assert Matches(items[j], s.headers[j]);
    if j > i {
      assert Insert(items, i, it)[j] == items[j - 1];
      assert Matches(items[j - 1], s.headers[j - 1]);
    }
  }

  /** The right-hand side names a header that lies before the insertion point, or none. */
  predicate Early(headers: seq<Desc>, x: Setting, idx: nat) {
    x.value.OfHeader? ==> var at := Find(headers, x.value.name); at.Some? && at.value < idx
  }

  predicate AllEarly(headers: seq<Desc>, xs: seq<Setting>, idx: nat) {
    forall k :: 0 <= k < |xs| ==> Early(headers, xs[k], idx)
  }

  ghost predicate AllEarlyUpTo(headers: seq<Desc>, xs: seq<Setting>, idx: nat, n: nat) {
    n <= |xs| && forall k :: 0 <= k < n ==> Early(headers, xs[k], idx)
  }

  lemma {:induction false} UserSound(items: seq<Item>, s: State, idx: nat, it: Item, proto: Proto, xs: seq<Setting>,
                                     n: nat,
                                     strict: bool)
    requires Tracks(items, s.headers) && Fresh(s) && idx <= |s.headers| && it.tag == s.nextTag && n <= |xs|
    requires UserAssigns(s.headers, Ref(idx, s.nextTag), proto, xs, n).Some?
    ensures AssignsOk(Insert(items, idx, it), UserAssigns(s.headers, Ref(idx, s.nextTag), proto, xs, n).value,
            strict) <==>
            (strict ==> AllEarlyUpTo(s.headers, xs, idx, n))
    decreases n
  {
    if n > 0 {
      UserSound(items, s, idx, it, proto, xs, n - 1, strict);
      var me := Ref(idx, s.nextTag);
      var before := UserAssigns(s.headers, me, proto, xs, n - 1).value;
      var a := UserAssign(s.headers, me, proto, xs[n - 1]).value;
      AssignsAppend(Insert(items, idx, it), before, [a], strict);
      UserSoundOne(items, s, idx, it, proto, xs[n - 1], strict);
      OneAssign(Insert(items, idx, it), a, strict);
    }
  }

  lemma {:induction false} OneAssign(items: seq<Item>, a: Assign, strict: bool)
    ensures AssignsOk(items, [a], strict) <==> AssignOk(items, a, strict)
  {
    if AssignsOk(items, [a], strict) { assert AssignOk(items, [a][0], strict); }
  }

  lemma {:induction false} UserSoundOne(items: seq<Item>, s: State, idx: nat, it: Item, proto: Proto, x: Setting,
                                        strict: bool)
    requires Tracks(items, s.headers) && Fresh(s) && idx <= |s.headers| && it.tag == s.nextTag
    requires UserAssign(s.headers, Ref(idx, s.nextTag), proto, x).Some?
    ensures AssignOk(Insert(items, idx, it), UserAssign(s.headers, Ref(idx, s.nextTag), proto, x).value, strict) <==>
            (strict ==> Early(s.headers, x, idx))
  {
    if x.value.OfHeader? {
      IndexAfterInsert(items, s, idx, it, Find(s.headers, x.value.name).value);
    }
  }

  /** The assignments of an add stage, on the packet with the new header. */
  lemma {:induction false} AddAssignsSound(items: seq<Item>, s: State, idx: nat, it: Item, stage: Stage, strict: bool)
    requires Tracks(items, s.headers) && Fresh(s) && stage.AddStage? && idx <= |s.headers| && it.tag == s.nextTag
    requires AddAssigns(s.headers, idx, Ref(idx, s.nextTag), stage).Some?
    ensures AssignsOk(Insert(items, idx, it), AddAssigns(s.headers, idx, Ref(idx, s.nextTag), stage).value, strict) <==>
            (strict ==> AllEarly(s.headers, stage.settings, idx))
  {
    var me, items' := Ref(idx, s.nextTag), Insert(items, idx, it);
    var mine := NextOfNew(s.headers, idx, me, stage.proto, SetsNext(stage.settings)).value;
    var previous := NextOfPrevious(s.headers, idx, stage.proto).value;
    var user := UserAssigns(s.headers, me, stage.proto, stage.settings, |stage.settings|).value;
    var auto := DefaultBytes(me, stage.proto) + mine + previous;
    if idx > 0 { IndexAfterInsert(items, s, idx, it, idx - 1); }
    assert AssignsOk(items', mine, strict) && AssignsOk(items', previous, strict);
    AssignsAppend(items', DefaultBytes(me, stage.proto), mine, strict);
    AssignsAppend(items', DefaultBytes(me, stage.proto) + mine, previous, strict);
    AssignsAppend(items', auto, user, strict);
    UserSound(items, s, idx, it, stage.proto, stage.settings, |stage.settings|, strict);
  }

  lemma {:induction false} MetaSound(m: Path, me: Ref, proto: Proto, strict: bool, fill: nat -> nat)
    requires MetaActions(m.seqSet, me, proto).Some? && RefOk(m.items, me) && m.owed == Owed(proto, me.tag)
    ensures var acts := MetaActions(m.seqSet, me, proto).value;
            Sound(m, acts, strict, fill) && ExecAll(m, acts, fill) == m.(owed := None) && Open(acts)
  {
    var a, b := OnField(WriteSeq, me, None), OnField(WriteTstamp, me, None);
    SoundOne(m, a, strict, fill);
    SoundOne(m, b, strict, fill);
    var acts := MetaActions(m.seqSet, me, proto).value;
    assert acts == if HasSeq(proto) then [a] else if HasTstamp(proto) then [b] else [];
  }

  lemma {:induction false} InsertFresh(s: State, i: nat, d: Desc)
    requires Fresh(s) && i <= |s.headers| && d.tag == s.nextTag
    ensures Fresh(s.(headers := Insert(s.headers, i, d), nextTag := s.nextTag + 1))
  {
  }

  predicate Open(acts: seq<Action>) { forall i :: 0 <= i < |acts| ==> !EndsPath(acts[i]) }

  /** An action, some that fill in what it owes, an edit. */
  lemma {:induction false} AddRuns(m: Path, add: Action, meta: seq<Action>, assigns: seq<Assign>, headers: seq<Desc>,
                                   strict: bool, fill: nat -> nat)
    requires !EndsPath(add) && Open(meta) && ActionOk(m, add, strict)
    requires var m1 := Exec(m, add, fill);
             Tracks(m1.items, headers) && Sound(m1, meta, strict, fill) && ExecAll(m1, meta, fill) == m1.(owed := None)
    ensures var m1, acts := Exec(m, add, fill), [add] + meta + EditOf(assigns);
            var m2 := ExecAll(m, acts, fill);
            Open(acts) && (Sound(m, acts, strict, fill) <==> AssignsOk(m1.items, assigns, strict)) &&
            Tracks(m2.items, headers) && m2 == m1.(items := m2.items, owed := None)
  {
    SoundOne(m, add, strict, fill);
    FromAppend(m, [add], meta, strict, fill);
    FromAppend(m, [add] + meta, EditOf(assigns), strict, fill);
    EditSound(Exec(m, add, fill).(owed := None), assigns, headers, strict, fill);
  }

  lemma {:induction false} AddSound(m: Path, s: State, stage: Stage, strict: bool, fill: nat -> nat)
    requires stage.AddStage? && EmitAdd(s, stage).Some? && Fits(m, s) && Fresh(s)
    ensures Good(m, s, stage, EmitAdd(s, stage).value, strict, fill)
  {
    var idx := AddIndex(s.headers, stage).value;
    var me, d := Ref(idx, s.nextTag), Desc(stage.name, stage.proto, s.nextTag);
    var it := Item(s.nextTag, stage.proto, fill(s.nextTag));
    InsertTracks(m.items, s.headers, idx, it, d);
    InsertFresh(s, idx, d);
    MetaSound(m.(items := Insert(m.items, idx, it), owed := Owed(stage.proto, s.nextTag)), me, stage.proto, strict,
              fill);
    AddRuns(m, AddHdr(idx, stage.proto, s.nextTag), MetaActions(s.seqSet, me, stage.proto).value,
            AddAssigns(s.headers, idx, me, stage).value, Insert(s.headers, idx, d), strict, fill);
    AddAssignsSound(m.items, s, idx, it, stage, strict);
  }

  // ----- the other stages -----

  /** The condition on one stage under which every index is right. */
  predicate StageEarly(s: State, stage: Stage) {
    stage.AddStage? ==> var at := AddIndex(s.headers, stage); at.Some? && AllEarly(s.headers, stage.settings, at.value)
  }

  /** What one stage's actions do: they are sound, and leave the packet as the compiler's list says. */
  ghost predicate Good(m: Path, s: State, stage: Stage, e: Emitted, strict: bool, fill: nat -> nat) {
    (Sound(m, e.acts, strict, fill) <==> (strict ==> StageEarly(s, stage))) &&
    Fits(ExecAll(m, e.acts, fill), e.state) && Fresh(e.state) && Open(e.acts)
  }

  lemma {:induction false} RemoveTracks(items: seq<Item>, headers: seq<Desc>, i: nat)
    requires Tracks(items, headers) && i < |headers|
    ensures Tracks(Remove(items, i), Remove(headers, i))
  {
    var items', headers' := Remove(items, i), Remove(headers, i);
    forall j | 0 <= j < |headers'|
      ensures Matches(items'[j], headers'[j])
    {
      if j < i { assert Matches(items[j], headers[j]); } else { assert Matches(items[j + 1], headers[j + 1]); }
    }
  }

  lemma {:induction false} DelAssignsSound(items: seq<Item>, headers: seq<Desc>, i: nat, strict: bool)
    requires Tracks(items, headers) && i < |headers| && NextAfterDelete(headers, i).Some?
    ensures AssignsOk(items, NextAfterDelete(headers, i).value, strict)
  {
    RefRight(items, headers, i);
    if i > 0 { RefRight(items, headers, i - 1); }
  }

  /** Actions that leave the headers alone, an edit, an action. */
  lemma {:induction false} DelRuns(m: Path, filter: seq<Action>, assigns: seq<Assign>, del: Action, headers: seq<Desc>,
                                   strict: bool, fill: nat -> nat) returns (m1: Path)
    requires Open(filter) && !EndsPath(del) && Sound(m, filter, strict, fill)
    requires var m0 := ExecAll(m, filter, fill);
             m0.owed.None? && Tracks(m0.items, headers) && AssignsOk(m0.items, assigns, strict)
    ensures Tracks(m1.items, headers) && m1 == ExecAll(m, filter, fill).(items := m1.items)
    ensures var acts := filter + EditOf(assigns) + [del];
            Open(acts) && (Sound(m, acts, strict, fill) <==> ActionOk(m1, del, strict)) &&
            ExecAll(m, acts, fill) == Exec(m1, del, fill)
  {
    var m0 := ExecAll(m, filter, fill);
    FromAppend(m, filter, EditOf(assigns), strict, fill);
    FromAppend(m, filter + EditOf(assigns), [del], strict, fill);
    EditSound(m0, assigns, headers, strict, fill);
    m1 := ExecAll(m0, EditOf(assigns), fill);
    SoundOne(m1, del, strict, fill);
  }

  lemma {:induction false} RemoveFresh(s: State, i: nat, due: Check)
    requires Fresh(s) && i < |s.headers| && (due == NoCheck || due == s.due)
    ensures Fresh(s.(headers := Remove(s.headers, i), due := due))
  {
  }

  lemma {:induction false} FilterSound(m: Path, hdr: Ref, proto: Proto, strict: bool, fill: nat -> nat)
    requires RefOk(m.items, hdr) && m.owed.None?
    ensures var acts := FilterBefore(hdr, proto);
            Sound(m, acts, strict, fill) && Open(acts) &&
            ExecAll(m, acts, fill) == if HasSeq(proto) then m.(filtered := hdr.tag) else m
  {
    SoundOne(m, OnField(FilterOam, hdr, None), strict, fill);
  }

  lemma {:induction false} DelSound(m: Path, s: State, name: string, strict: bool, fill: nat -> nat)
    requires EmitDel(s, name).Some? && Fits(m, s) && Fresh(s)
    ensures Good(m, s, DelStage(name), EmitDel(s, name).value, strict, fill)
  {
    var i := Find(s.headers, name).value;
    var hdr := RefTo(s.headers, i);
    RefRight(m.items, s.headers, i);
    FilterSound(m, hdr, s.headers[i].proto, strict, fill);
    DelAssignsSound(m.items, s.headers, i, strict);
    var m1 := DelRuns(m, FilterBefore(hdr, s.headers[i].proto), NextAfterDelete(s.headers, i).value, DelHdr(hdr),
                      s.headers, strict, fill);
    LastDelete(m, m1, s, i, hdr, strict, fill);
    RemoveFresh(s, i, if s.due == Due(hdr.tag) then NoCheck else s.due);
  }

  lemma {:induction false} LastDelete(m: Path, m1: Path, s: State, i: nat, hdr: Ref, strict: bool, fill: nat -> nat)
    requires Fits(m, s) && Fresh(s) && i < |s.headers| && hdr == RefTo(s.headers, i) && Tracks(m1.items, s.headers)
    requires m1 == (if HasSeq(s.headers[i].proto) then m.(filtered := hdr.tag) else m).(items := m1.items)
    ensures ActionOk(m1, DelHdr(hdr), strict)
    ensures Fits(Exec(m1, DelHdr(hdr), fill), s.(headers := Remove(s.headers, i),
                                                 due := if s.due == Due(hdr.tag) then NoCheck else s.due))
  {
    RefRight(m1.items, s.headers, i);
    assert Matches(m1.items[i], s.headers[i]);
    RemoveTracks(m1.items, s.headers, i);
  }

  lemma {:induction false} ChangesSound(items: seq<Item>, headers: seq<Desc>, xs: seq<Change>, n: nat, strict: bool)
    requires Tracks(items, headers) && n <= |xs| && Changes(headers, xs, n).Some?
    ensures AssignsOk(items, Changes(headers, xs, n).value, strict)
    decreases n
  {
    if n > 0 {
      ChangesSound(items, headers, xs, n - 1, strict);
      var x := xs[n - 1];
      RefRight(items, headers, Find(headers, x.header).value);
      if x.value.OfHeader? { RefRight(items, headers, Find(headers, x.value.name).value); }
      AssignsAppend(items, Changes(headers, xs, n - 1).value, [ChangeOf(headers, x).value], strict);
    }
  }

  lemma {:induction false} EditStageSound(m: Path, s: State, xs: seq<Change>, strict: bool, fill: nat -> nat)
    requires EmitEdit(s, xs).Some? && Fits(m, s) && Fresh(s)
    ensures Good(m, s, EditStage(xs), EmitEdit(s, xs).value, strict, fill)
  {
    var assigns := Changes(s.headers, xs, |xs|).value;
    ChangesSound(m.items, s.headers, xs, |xs|, strict);
    EditSound(m, assigns, s.headers, strict, fill);
    assert EditOf(assigns) == [EditHdr(assigns)];
  }

  lemma {:induction false} PayloadRight(items: seq<Item>, headers: seq<Desc>, i: nat)
    requires Tracks(items, headers) && i <= |headers|
    ensures RefOk(items, PayloadFrom(headers, i)) && items[PayloadFrom(headers, i).idx].proto == Payload
    decreases |headers| - i
  {
    if i < |headers| {
      RefRight(items, headers, i);
      if headers[i].proto ==
          Payload { assert Matches(items[i], headers[i]); } else { PayloadRight(items, headers, i + 1); }
    }
  }

  lemma {:induction false} FieldSound(m: Path, s: State, kind: Kind, name: string, strict: bool, fill: nat -> nat)
    requires EmitField(s, kind, name).Some? && Fits(m, s) && Fresh(s)
    ensures Good(m, s, FieldStage(kind, name), EmitField(s, kind, name).value, strict, fill)
  {
    var e := EmitField(s, kind, name).value;
    var i := Find(s.headers, name).value;
    RefRight(m.items, s.headers, i);
    PayloadRight(m.items, s.headers, 0);
    if NeedsIp(kind, s.headers[i].proto) { RefRight(m.items, s.headers, LastIp(s.headers, i).value); }
    SoundOne(m, e.acts[0], strict, fill);
    assert e.acts == [e.acts[0]];
  }

  lemma {:induction false} PlainSound(m: Path, s: State, what: Plain, strict: bool, fill: nat -> nat)
    requires what != Drop && EmitPlain(s, what).Some? && Fits(m, s) && Fresh(s)
    ensures Good(m, s, PlainStage(what), EmitPlain(s, what).value, strict, fill)
  {
    SoundOne(m, Do(what), strict, fill);
    if what == Send && s.due != NoCheck {
      SoundOne(m, Do(TtlCheck), strict, fill);
      FromAppend(m, [Do(TtlCheck)], [Do(Send)], strict, fill);
      assert [Do(TtlCheck)] + [Do(Send)] == [Do(TtlCheck), Do(Send)];
    }
  }

  lemma {:induction false} EmitSound(m: Path, s: State, stage: Stage, strict: bool, fill: nat -> nat)
    requires !Final(stage) && Emit(s, stage).Some? && Fits(m, s) && Fresh(s)
    ensures Good(m, s, stage, Emit(s, stage).value, strict, fill)
  {
    match stage
    case AddStage(_, _, _, _, _) => AddSound(m, s, stage, strict, fill);
    case DelStage(header) => DelSound(m, s, header, strict, fill);
    case EditStage(changes) => EditStageSound(m, s, changes, strict, fill);
    case FieldStage(kind, header) => FieldSound(m, s, kind, header, strict, fill);
    case PlainStage(what) => PlainSound(m, s, what, strict, fill);
  }

  // ----- whole pipelines -----

  /** Every add stage that the compiler meets from here takes its right-hand sides from before the
      insertion point. */
  predicate Careful(env: Pipelines, s: State, stages: seq<Stage>)
    decreases Budget(s), 2, |stages|
  {
    stages == [] ||
    if Final(stages[0]) then CarefulFinal(env, s, stages[0])
    else
      StageEarly(s, stages[0]) &&
      var e := Emit(s, stages[0]); e.Some? && Careful(env, e.value.state, stages[1..])
  }

  predicate CarefulFinal(env: Pipelines, s: State, stage: Stage)
    decreases Budget(s), 1, 0
  {
    match stage
    case JumpStage(pipe) => CarefulPipe(env, s, pipe)
    case ElimStage(pipe) => CarefulPipe(env, s, pipe)
    case ReplStage(pipes) => forall i :: 0 <= i < |pipes| ==> CarefulPipe(env, Copied(s), pipes[i])
    case _ => true
  }

  predicate CarefulPipe(env: Pipelines, s: State, pipe: string)
    decreases Budget(s), 0, 0
  {
    pipe in env && s.depth <= MAX_DEPTH && Careful(env, s.(depth := s.depth + 1), env[pipe])
  }

  /** The compiled actions of any pipeline are sound on any packet that shows the compiler's headers; with
      the right-hand sides of add stages included, exactly when those are taken from before the insertion. */
  lemma {:induction false} CompiledIsSound(env: Pipelines, s: State, stages: seq<Stage>, m: Path, strict: bool,
                                           fill: nat -> nat)
    requires Compile(env, s, stages).Some? && Fits(m, s) && Fresh(s)
    ensures Sound(m, Compile(env, s, stages).value, strict, fill) <==> (strict ==> Careful(env, s, stages))
    decreases Budget(s), 2, |stages|
  {
    if stages != [] {
      if Final(stages[0]) {
        FinalIsSound(env, s, stages[0], m, strict, fill);
      } else {
        var e := Emit(s, stages[0]).value;
        EmitSound(m, s, stages[0], strict, fill);
        var m' := ExecAll(m, e.acts, fill);
        CompiledIsSound(env, e.state, stages[1..], m', strict, fill);
        SoundAppend(m, e.acts, Compile(env, e.state, stages[1..]).value, strict, fill);
      }
    }
  }

  lemma {:induction false} InlinedIsSound(env: Pipelines, s: State, pipe: string, m: Path, strict: bool,
                                          fill: nat -> nat)
    requires Inlined(env, s, pipe).Some? && Fits(m, s) && Fresh(s)
    ensures Inlined(env, s, pipe).value != []
    ensures Sound(m, Inlined(env, s, pipe).value, strict, fill) <==> (strict ==> CarefulPipe(env, s, pipe))
    decreases Budget(s), 0, 0
  {
    CompiledIsSound(env, s.(depth := s.depth + 1), env[pipe], m, strict, fill);
  }

  lemma {:induction false} BranchAt(env: Pipelines, s: State, pipes: seq<string>, n: nat, i: nat)
    requires i < n <= |pipes| && Branches(env, s, pipes, n).Some?
    ensures Inlined(env, Copied(s), pipes[i]) == Some(Branches(env, s, pipes, n).value[i].acts)
    decreases n
  {
    if i < n - 1 { BranchAt(env, s, pipes, n - 1, i); }
  }

  lemma {:induction false} ReplIsSound(env: Pipelines, s: State, pipes: seq<string>, m: Path, strict: bool,
                                       fill: nat -> nat)
    requires pipes != [] && Branches(env, s, pipes, |pipes|).Some? && Fits(m, s) && Fresh(s)
    ensures Sound(m, [Repl(Branches(env, s, pipes, |pipes|).value)], strict, fill) <==>
            (strict ==> CarefulFinal(env, s, ReplStage(pipes)))
    decreases Budget(s), 0, 1
  {
    var bs := Branches(env, s, pipes, |pipes|).value;
    forall i | 0 <= i < |pipes|
      ensures bs[i].acts != []
      ensures Sound(m, bs[i].acts, strict, fill) <==> (strict ==> CarefulPipe(env, Copied(s), pipes[i]))
    {
      BranchAt(env, s, pipes, |pipes|, i);
      InlinedIsSound(env, Copied(s), pipes[i], m, strict, fill);
    }
    var acts := [Repl(bs)];
    assert acts[1..] == [];
  }

  lemma {:induction false} FinalIsSound(env: Pipelines, s: State, stage: Stage, m: Path, strict: bool, fill: nat -> nat)
    requires Final(stage) && CompileFinal(env, s, stage).Some? && Fits(m, s) && Fresh(s)
    ensures Sound(m, CompileFinal(env, s, stage).value, strict, fill) <==> (strict ==> CarefulFinal(env, s, stage))
    decreases Budget(s), 1, 0
  {
    match stage
    case PlainStage(_) => assert [Do(Drop)][1..] == [];
    case JumpStage(pipe) => InlinedIsSound(env, s, pipe, m, strict, fill);
    case ElimStage(pipe) =>
      InlinedIsSound(env, s, pipe, m, strict, fill);
      SoundOne(m, Elim, strict, fill);
      SoundAppend(m, [Elim], Inlined(env, s, pipe).value, strict, fill);
    case ReplStage(pipes) => ReplIsSound(env, s, pipes, m, strict, fill);
  }

  // ----- a whole stream -----

  lemma {:induction false} TaggedAt(headers: seq<(string, Proto)>, n: nat, i: nat)
    requires i < n <= |headers|
    ensures Tagged(headers, n)[i] == Desc(headers[i].0, headers[i].1, i + 1)
    decreases n
  {
    if i < n - 1 { TaggedAt(headers, n - 1, i); }
  }

  lemma {:induction false} StartFresh(headers: seq<(string, Proto)>)
    ensures Fresh(Start(headers))
  {
    forall i | 0 <= i < |headers|
      ensures Tagged(headers, |headers|)[i].tag == i + 1
    {
      TaggedAt(headers, |headers|, i);
    }
  }

  /** A packet at the start of its pipeline. If its first header has a TTL, that must be checked. */
  function Arrived(items: seq<Item>): Path {
    Path(items, false, false, None, 0, if items != [] && HasTtl(items[0].proto) then Some(items[0].tag) else None)
  }

  /** A packet that matched the declared headers, compiled and run: every index names its header at every
      action of every path, every sequence number and TTL is there before it is used, new headers are numbered
      and stamped, OAM is filtered before a sequence tag goes, the TTL is checked before a send, no jump is
      left, and drops and replications end their paths. */
  lemma {:induction false} StreamIsSound(env: Pipelines, headers: seq<(string, Proto)>, stages: seq<Stage>,
                                         items: seq<Item>,
                                         strict: bool, fill: nat -> nat)
    requires CompileStream(env, headers, stages).Some? && Tracks(items, Tagged(headers, |headers|))
    ensures CompileStream(env, headers, stages).value != []
    ensures Sound(Arrived(items), CompileStream(env, headers, stages).value, strict, fill) <==>
            (strict ==> Careful(env, Start(headers), stages))
  {
    var s, m, auto := Start(headers), Arrived(items), AutoReduce(headers);
    StartFresh(headers);
    AutoSound(headers, items, strict, fill);
    SoundAppend(m, auto, Compile(env, s, stages).value, strict, fill);
    CompiledIsSound(env, s, stages, ExecAll(m, auto, fill), strict, fill);
  }

  lemma {:induction false} AutoSound(headers: seq<(string, Proto)>, items: seq<Item>, strict: bool, fill: nat -> nat)
    requires Tracks(items, Tagged(headers, |headers|))
    ensures var m, auto := Arrived(items), AutoReduce(headers);
            Open(auto) && Sound(m, auto, strict, fill) && Fits(ExecAll(m, auto, fill), Start(headers))
  {
    var m, auto, ds := Arrived(items), AutoReduce(headers), Tagged(headers, |headers|);
    if headers != [] {
      TaggedAt(headers, |headers|, 0);
      RefRight(items, ds, 0);
      assert Matches(items[0], ds[0]);
    }
    if StartsWithTtl(headers) { SoundOne(m, auto[0], strict, fill); }
  }

  /** An add stage that reads a field of the very header it is put in front of. */
  const LATE := AddStage("ip", false, "vlan", CVlan, [Setting(Other, OfHeader("ip"))])

  lemma {:induction false} LateCompiles(s: State)
    requires s.headers == [Desc("eth", Eth, 1), Desc("ip", IPv4, 2)] && s.due == NoCheck
    ensures Emit(s, LATE).Some? && !StageEarly(s, LATE) && Emit(s, LATE).value.state.due == NoCheck
  {
    FindIsUnique(s.headers, "ip", 1);
    assert UserAssigns(s.headers, Ref(1, s.nextTag), CVlan, LATE.settings, 1).Some?;
    assert !Early(s.headers, LATE.settings[0], 1);
  }

  /** It compiles, and the index that it emits for that header names the new one. */
  lemma {:induction false} LateStream(headers: seq<(string, Proto)>, stages: seq<Stage>)
    requires headers == [("eth", Eth), ("ip", IPv4)] && stages == [LATE, PlainStage(Send)]
    ensures CompileStream(map[], headers, stages).Some? && !Careful(map[], Start(headers), stages)
  {
    var s := Start(headers);
    TaggedAt(headers, |headers|, 0);
    TaggedAt(headers, |headers|, 1);
    assert s.headers == [Desc("eth", Eth, 1), Desc("ip", IPv4, 2)];
    LateCompiles(s);
    assert stages[1..] == [PlainStage(Send)];
    assert Compile(map[], Emit(s, LATE).value.state, [PlainStage(Send)]).Some?;
  }

  lemma {:induction false} LateSourceIsWrong(headers: seq<(string, Proto)>, items: seq<Item>, fill: nat -> nat)
    requires headers == [("eth", Eth), ("ip", IPv4)] && Tracks(items, Tagged(headers, |headers|))
    ensures var r := CompileStream(map[], headers, [LATE, PlainStage(Send)]);
            r.Some? && Sound(Arrived(items), r.value, false, fill) &&
            !Sound(Arrived(items), r.value, true, fill)
  {
    var stages := [LATE, PlainStage(Send)];
    LateStream(headers, stages);
    StreamIsSound(map[], headers, stages, items, false, fill);
    StreamIsSound(map[], headers, stages, items, true, fill);
  }

  // ----- pipelines that never end -----

  /** The last stage goes on to a pipeline of the set. */
  predicate Continues(stages: seq<Stage>, names: set<string>) {
    stages != [] &&
    match stages[|stages| - 1]
    case JumpStage(pipe) => pipe in names
    case ElimStage(pipe) => pipe in names
    case ReplStage(pipes) => exists i :: 0 <= i < |pipes| && pipes[i] in names
    case _ => false
  }

  lemma {:induction false} BranchesFail(env: Pipelines, s: State, pipes: seq<string>, n: nat, i: nat)
    requires i < n <= |pipes| && Inlined(env, Copied(s), pipes[i]).None?
    ensures Branches(env, s, pipes, n).None?
    decreases n
  {
    if i < n - 1 { BranchesFail(env, s, pipes, n - 1, i); }
  }

  /** Pipelines that jump or replicate in a circle are refused, from every state. */
  lemma {:induction false} CirclesAreRefused(env: Pipelines, names: set<string>, s: State, stages: seq<Stage>)
    requires forall n :: n in names && n in env ==> Continues(env[n], names)
    requires Continues(stages, names)
    ensures Compile(env, s, stages).None?
    decreases Budget(s), 2, |stages|
  {
    if Final(stages[0]) {
      if |stages| == 1 { CircleEnds(env, names, s, stages[0]); }
    } else if Emit(s, stages[0]).Some? {
      assert stages[1..][|stages| - 2] == stages[|stages| - 1];
      CirclesAreRefused(env, names, Emit(s, stages[0]).value.state, stages[1..]);
    }
  }

  lemma {:induction false} CircleEnds(env: Pipelines, names: set<string>, s: State, stage: Stage)
    requires forall n :: n in names && n in env ==> Continues(env[n], names)
    requires Final(stage) && Continues([stage], names)
    ensures CompileFinal(env, s, stage).None?
    decreases Budget(s), 1, 0
  {
    match stage
    case JumpStage(pipe) => PipeInCircle(env, names, s, pipe);
    case ElimStage(pipe) => PipeInCircle(env, names, s, pipe);
    case ReplStage(pipes) =>
      var i :| 0 <= i < |pipes| && pipes[i] in names;
      PipeInCircle(env, names, Copied(s), pipes[i]);
      BranchesFail(env, s, pipes, |pipes|, i);
  }

  lemma {:induction false} PipeInCircle(env: Pipelines, names: set<string>, s: State, pipe: string)
    requires forall n :: n in names && n in env ==> Continues(env[n], names)
    requires pipe in names
    ensures Inlined(env, s, pipe).None?
    decreases Budget(s), 0, 0
  {
    if pipe in env && s.depth <= MAX_DEPTH { CirclesAreRefused(env, names, s.(depth := s.depth + 1), env[pipe]); }
  }

  // ----- the packet itself -----

  function TypesOf(l: PacketLayout.Layout): seq<Proto> {
    seq(|l.headers|, i requires 0 <= i < |l.headers| => l.headers[i].proto)
  }
  function Types(items: seq<Item>): seq<Proto> { seq(|items|, i requires 0 <= i < |items| => items[i].proto) }

  /** Adding and deleting on the packet's own header table is inserting and removing on the list used here,
      whenever the packet has room. */
  lemma {:induction false} PacketFollows(l: PacketLayout.Layout, items: seq<Item>, idx: nat, it: Item, len: nat)
    requires TypesOf(l) == Types(items)
    ensures var r := PacketLayout.AddHeader(l, idx, it.proto, len);
            r.Some? ==> idx <= |items| && TypesOf(r.value) == Types(Insert(items, idx, it))
    ensures idx < |items| ==> TypesOf(PacketLayout.DelHeader(l, idx)) == Types(Remove(items, idx))
  {
    assert |l.headers| == |TypesOf(l)| == |Types(items)| == |items|;
    assert forall i :: 0 <= i < |items| ==> TypesOf(l)[i] == l.headers[i].proto && Types(items)[i] == items[i].proto;
  }

  /** The adds and deletes of a list, on the packet's own header table, while there is room. */
  function Placed(l: PacketLayout.Layout, acts: seq<Action>): Option<PacketLayout.Layout>
    decreases |acts|
  {
    if acts == [] then Some(l) else
    match acts[0]
    case AddHdr(idx, proto, _) =>
      var r := PacketLayout.AddHeader(l, idx, proto, ByteLength(proto));
      if r.None? then None else Placed(r.value, acts[1..])
    case DelHdr(hdr) => Placed(PacketLayout.DelHeader(l, hdr.idx), acts[1..])
    case _ => Placed(l, acts[1..])
  }

  lemma {:induction false} EditKeepsTypes(items: seq<Item>, assigns: seq<Assign>)
    ensures Types(AssignedAll(items, assigns)) == Types(items)
  {
    AssignsKeepHeaders(items, assigns);
  }

  lemma {:induction false} DelFollows(l: PacketLayout.Layout, items: seq<Item>, idx: nat)
    requires TypesOf(l) == Types(items)
    ensures TypesOf(PacketLayout.DelHeader(l, idx)) == Types(if idx < |items| then Remove(items, idx) else items)
  {
    assert |l.headers| == |TypesOf(l)| == |Types(items)| == |items|;
    PacketFollows(l, items, idx, Item(0, Payload, 0), 0);
  }

  /** Over a whole list of actions, as long as every add finds room: the types in the packet's header table are
      those of the header list used here. */
  lemma {:induction false} PacketFollowsList(l: PacketLayout.Layout, m: Path, acts: seq<Action>, fill: nat -> nat)
    requires TypesOf(l) == Types(m.items) && Placed(l, acts).Some?
    ensures TypesOf(Placed(l, acts).value) == Types(ExecAll(m, acts, fill).items)
    decreases |acts|
  {
    if acts != [] {
      var m', rest := Exec(m, acts[0], fill), acts[1..];
      match acts[0]
      case AddHdr(idx, proto, tag) =>
        PacketFollows(l, m.items, idx, Item(tag, proto, fill(tag)), ByteLength(proto));
        PacketFollowsList(PacketLayout.AddHeader(l, idx, proto, ByteLength(proto)).value, m', rest, fill);
      case DelHdr(hdr) =>
        DelFollows(l, m.items, hdr.idx);
        PacketFollowsList(PacketLayout.DelHeader(l, hdr.idx), m', rest, fill);
      case EditHdr(assigns) =>
        EditKeepsTypes(m.items, assigns);
        PacketFollowsList(l, m', rest, fill);
      case _ => PacketFollowsList(l, m', rest, fill);
    }
  }

  /** Room at every add: fewer than 20 headers, and what was added so far with the new header below the start. */
  predicate HasRoom(count: nat, scratch: nat, start: nat, acts: seq<Action>)
    decreases |acts|
  {
    acts == [] ||
    match acts[0]
    case AddHdr(_, proto, _) =>
      count < PacketLayout.MAX_HEADERS && scratch + ByteLength(proto) < start &&
      HasRoom(count + 1, scratch + ByteLength(proto), start, acts[1..])
    case DelHdr(_) => HasRoom(if count > 0 then count - 1 else 0, scratch, start, acts[1..])
    case _ => HasRoom(count, scratch, start, acts[1..])
  }

  /** For a sound list, that is all that an add can fail for. */
  lemma {:induction false} PlacedExactly(l: PacketLayout.Layout, m: Path, acts: seq<Action>, strict: bool,
                                         fill: nat -> nat)
    requires |l.headers| == |m.items| <= PacketLayout.MAX_HEADERS && Sound(m, acts, strict, fill)
    ensures Placed(l, acts).Some? <==> HasRoom(|l.headers|, l.scratchLen, l.start, acts)
  {
    SoundInRange(m, acts, strict, fill);
    PlacedInRange(l, acts);
  }

  /** Every add and delete names a place in the header list. */
  predicate InRange(count: nat, acts: seq<Action>)
    decreases |acts|
  {
    acts == [] ||
    match acts[0]
    case AddHdr(idx, _, _) => idx <= count && InRange(count + 1, acts[1..])
    case DelHdr(hdr) => hdr.idx < count && InRange(count - 1, acts[1..])
    case _ => InRange(count, acts[1..])
  }

  lemma {:induction false} SoundInRange(m: Path, acts: seq<Action>, strict: bool, fill: nat -> nat)
    requires Sound(m, acts, strict, fill)
    ensures InRange(|m.items|, acts)
    decreases |acts|
  {
    if acts != [] { SoundInRange(Exec(m, acts[0], fill), acts[1..], strict, fill); }
  }

  lemma {:induction false} PlacedInRange(l: PacketLayout.Layout, acts: seq<Action>)
    requires |l.headers| <= PacketLayout.MAX_HEADERS && InRange(|l.headers|, acts)
    ensures Placed(l, acts).Some? <==> HasRoom(|l.headers|, l.scratchLen, l.start, acts)
    decreases |acts|
  {
    if acts != [] {
      match acts[0]
      case AddHdr(idx, proto, _) =>
        var r := PacketLayout.AddHeader(l, idx, proto, ByteLength(proto));
        if r.Some? { PlacedInRange(r.value, acts[1..]); }
      case DelHdr(hdr) => PlacedInRange(PacketLayout.DelHeader(l, hdr.idx), acts[1..]);
      case _ => PlacedInRange(l, acts[1..]);
    }
  }

  /** A packet that was identified as one of a stream's shows that stream's headers, with the payload last. */
  lemma {:induction false} IdentifiedTracks(l: PacketLayout.Layout, hs: seq<StreamMatch.Descriptor>,
                                            headers: seq<(string, Proto)>, items: seq<Item>)
    requires StreamMatch.OffsetOf(hs, |hs|) <= l.len && |hs| < PacketLayout.MAX_HEADERS
    requires forall i :: 0 <= i < |hs| ==> ByteLength(hs[i].proto) > 0
    requires |headers| == |hs| && forall i :: 0 <= i < |hs| ==> headers[i].1 == hs[i].proto
    requires Types(items) == TypesOf(l.(headers := StreamMatch.WithPayload(l, hs)))
    requires forall i :: 0 <= i < |items| ==> items[i].tag == if i < |hs| then i + 1 else 0
    ensures Tracks(items, Tagged(headers, |headers|))
  {
    var es, ds := StreamMatch.WithPayload(l, hs), Tagged(headers, |headers|);
    assert |es| == |TypesOf(l.(headers := es))| == |Types(items)| == |items|;
    assert forall i :: 0 <= i < |items| ==> TypesOf(l.(headers := es))[i] == es[i].proto;
    assert forall i :: 0 <= i < |items| ==> Types(items)[i] == items[i].proto;
    forall i | 0 <= i < |ds|
      ensures Matches(items[i], ds[i])
    {
      StreamMatch.EntriesAt(l, hs, |hs|, i);
      TaggedAt(headers, |headers|, i);
    }
  }
}
