/** The next-header fields that compiled add and delete stages leave behind (conf_actions.c). */
module NextHeaders {
  import opened Basics
  import opened Protocols
  import opened Actions
  import opened Compiler
  import opened Simulation

  /** Header i names the header after it, if it has a field for that. */
  predicate Linked(items: seq<Item>, i: nat)
    requires i + 1 < |items|
  {
    FamilyOf(items[i].proto) == NoFamily ||
    CodeOf(FamilyOf(items[i].proto), items[i + 1].proto) == Some(items[i].next)
  }

  /** Every header but the last, which the payload follows, names the next. */
  ghost predicate Chained(items: seq<Item>) {
    forall i :: 0 <= i && i + 2 < |items| ==> Linked(items, i)
  }

  /** What the last header says about the payload, if it says anything, is what the last header said before. */
  predicate SamePayloadCode(before: seq<Item>, after: seq<Item>) {
    |after| >= 2 && FamilyOf(after[|after| - 2].proto) != NoFamily ==>
      |before| >= 2 && FamilyOf(before[|before| - 2].proto) == FamilyOf(after[|after| - 2].proto) &&
      before[|before| - 2].next == after[|after| - 2].next
  }

  ghost predicate Keeps(before: seq<Item>, after: seq<Item>) {
    (Chained(before) ==> Chained(after)) && SamePayloadCode(before, after)
  }

  // ----- assignments -----

  lemma {:induction false} AssignedAppend(items: seq<Item>, a: seq<Assign>, b: seq<Assign>)
    ensures AssignedAll(items, a + b) == AssignedAll(AssignedAll(items, a), b)
    decreases |a|
  {
    if a == [] {
      assert a + b == b;
    } else {
      assert (a + b)[1..] == a[1..] + b;
      AssignedAppend(Assigned(items, a[0]), a[1..], b);
    }
  }

  lemma {:induction false} AssignedOne(items: seq<Item>, a: Assign)
    ensures AssignedAll(items, [a]) == Assigned(items, a)
  {
    assert [a][1..] == [];
  }

  predicate Elsewhere(a: Assign) { a.Write? && a.field == Other }

  lemma {:induction false} OtherFields(items: seq<Item>, assigns: seq<Assign>)
    requires forall i :: 0 <= i < |assigns| ==> Elsewhere(assigns[i])
    ensures AssignedAll(items, assigns) == items
    decreases |assigns|
  {
    if assigns != [] {
      assert Elsewhere(assigns[0]);
      OtherFields(items, assigns[1..]);
    }
  }

  lemma {:induction false} UserElsewhere(headers: seq<Desc>, me: Ref, proto: Proto, xs: seq<Setting>, n: nat)
    requires n <= |xs| && !SetsNext(xs) && UserAssigns(headers, me, proto, xs, n).Some?
    ensures forall i :: 0 <= i < n ==> Elsewhere(UserAssigns(headers, me, proto, xs, n).value[i])
    decreases n
  {
    if n > 0 { UserElsewhere(headers, me, proto, xs, n - 1); }
  }

  lemma {:induction false} ChangesElsewhere(headers: seq<Desc>, xs: seq<Change>, n: nat)
    requires n <= |xs| && (forall i :: 0 <= i < |xs| ==> xs[i].field == Other) && Changes(headers, xs, n).Some?
    ensures forall i :: 0 <= i < n ==> Elsewhere(Changes(headers, xs, n).value[i])
    decreases n
  {
    if n > 0 { ChangesElsewhere(headers, xs, n - 1); }
  }

  // ----- add -----

  /** The next-header field of the new header after the assignments of an add stage that leaves it to the compiler. */
  function OwnNext(items: seq<Item>, idx: nat): nat
    requires idx + 1 < |items|
  {
    if FamilyOf(items[idx].proto) == NoFamily then (if HasDefault(items[idx].proto) then 0 else items[idx].next)
    else if idx + 2 < |items| then Code(items[idx].proto, items[idx + 1].proto)
    else if idx > 0 then items[idx - 1].next else 0
  }

  /** All next-header fields after them. */
  function Relinked(items: seq<Item>, idx: nat): seq<Item>
    requires idx + 1 < |items|
  {
    var own := WithNext(items, idx, OwnNext(items, idx));
    if idx == 0 || FamilyOf(items[idx - 1].proto) == NoFamily then own
    else WithNext(own, idx - 1, Code(items[idx - 1].proto, items[idx].proto))
  }

  function Code(proto: Proto, next: Proto): nat {
    var c := CodeOf(FamilyOf(proto), next);
    if c.None? then 0 else c.value
  }

  /** The new header can name what follows it, or copy from what precedes it, and can be named. */
  predicate Linkable(items: seq<Item>, idx: nat, proto: Proto)
    requires idx < |items|
  {
    (FamilyOf(proto) != NoFamily ==>
       if idx + 1 < |items| then CodeOf(FamilyOf(proto), items[idx].proto).Some?
       else idx > 0 && FamilyOf(proto) == FamilyOf(items[idx - 1].proto)) &&
    (idx > 0 && FamilyOf(items[idx - 1].proto) != NoFamily ==> CodeOf(FamilyOf(items[idx - 1].proto), proto).Some?)
  }

  lemma {:induction false} RelinkedAt(items: seq<Item>, idx: nat, it: Item, i: nat)
    requires idx < |items| && i + 2 < |items| + 1 && Linkable(items, idx, it.proto) && Chained(items)
    ensures Linked(Relinked(Insert(items, idx, it), idx), i)
  {
    var r := Relinked(Insert(items, idx, it), idx);
    if i + 1 < idx {
      assert r[i] == items[i] && r[i + 1].proto == items[i + 1].proto;
      assert Linked(items, i);
    } else if i > idx {
      assert r[i] == items[i - 1] && r[i + 1] == items[i];
      assert Linked(items, i - 1);
    }
  }

  lemma {:induction false} RelinkedCode(items: seq<Item>, idx: nat, it: Item)
    requires idx < |items| && Linkable(items, idx, it.proto)
    ensures SamePayloadCode(items, Relinked(Insert(items, idx, it), idx))
  {
  }

  lemma {:induction false} RelinkedChain(items: seq<Item>, idx: nat, it: Item)
    requires idx < |items| && Linkable(items, idx, it.proto)
    ensures Keeps(items, Relinked(Insert(items, idx, it), idx))
  {
    RelinkedCode(items, idx, it);
    if Chained(items) {
      var r := Relinked(Insert(items, idx, it), idx);
      forall i | 0 <= i && i + 2 < |r|
        ensures Linked(r, i)
      {
        RelinkedAt(items, idx, it, i);
      }
    }
  }

  lemma {:induction false} OwnRelinks(items: seq<Item>, headers: seq<Desc>, idx: nat, me: Ref, it: Item)
    requires Tracks(items, headers) && idx <= |headers| && me.idx == idx
    requires NextOfNew(headers, idx, me, it.proto, false).Some?
    ensures var items' := Insert(items, idx, it);
            AssignedAll(items', DefaultBytes(me, it.proto) + NextOfNew(headers, idx, me, it.proto, false).value) ==
              WithNext(items', idx, OwnNext(items', idx))
  {
    var a, b := DefaultBytes(me, it.proto), NextOfNew(headers, idx, me, it.proto, false).value;
    var items' := Insert(items, idx, it);
    if idx > 0 { assert Matches(items[idx - 1], headers[idx - 1]); }
    if idx < |headers| { assert Matches(items[idx], headers[idx]); }
    AssignedAppend(items', a, b);
    AssignedOne(items', SetDefault(me));
    if b != [] { AssignedOne(AssignedAll(items', a), b[0]); }
  }

  /** The emitted order, default bytes, new header, previous header, gives exactly that. */
  lemma {:induction false} AutoRelinks(items: seq<Item>, headers: seq<Desc>, idx: nat, me: Ref, it: Item)
    requires Tracks(items, headers) && idx <= |headers| && me.idx == idx
    requires NextOfNew(headers, idx, me, it.proto, false).Some? && NextOfPrevious(headers, idx, it.proto).Some?
    ensures var auto := DefaultBytes(me, it.proto) + NextOfNew(headers, idx, me, it.proto, false).value +
                        NextOfPrevious(headers, idx, it.proto).value;
            AssignedAll(Insert(items, idx, it), auto) == Relinked(Insert(items, idx, it), idx)
  {
    var first := DefaultBytes(me, it.proto) + NextOfNew(headers, idx, me, it.proto, false).value;
    var c, items' := NextOfPrevious(headers, idx, it.proto).value, Insert(items, idx, it);
    if idx > 0 { assert Matches(items[idx - 1], headers[idx - 1]); }
    OwnRelinks(items, headers, idx, me, it);
    AssignedAppend(items', first, c);
    if c != [] { AssignedOne(AssignedAll(items', first), c[0]); }
  }

  lemma {:induction false} AddKeepsChain(items: seq<Item>, headers: seq<Desc>, idx: nat, me: Ref, it: Item,
                                         stage: Stage)
    requires Tracks(items, headers) && idx <= |headers| && me.idx == idx && stage.AddStage? && it.proto == stage.proto
    requires AddAssigns(headers, idx, me, stage).Some? && !SetsNext(stage.settings)
    ensures Keeps(items, AssignedAll(Insert(items, idx, it), AddAssigns(headers, idx, me, stage).value))
  {
    var auto := DefaultBytes(me, it.proto) + NextOfNew(headers, idx, me, it.proto, false).value +
                NextOfPrevious(headers, idx, it.proto).value;
    var user := UserAssigns(headers, me, stage.proto, stage.settings, |stage.settings|).value;
    AutoRelinks(items, headers, idx, me, it);
    AssignedAppend(Insert(items, idx, it), auto, user);
    UserElsewhere(headers, me, stage.proto, stage.settings, |stage.settings|);
    OtherFields(AssignedAll(Insert(items, idx, it), auto), user);
    if idx > 0 { assert Matches(items[idx - 1], headers[idx - 1]); }
    if idx < |headers| { assert Matches(items[idx], headers[idx]); }
    RelinkedChain(items, idx, it);
  }

  /** Setting k is the last of the first n that writes the next-header field. */
  ghost predicate LastSetting(xs: seq<Setting>, k: nat, n: nat) {
    k < n <= |xs| && xs[k].field == Next && forall j :: k < j < n ==> xs[j].field == Other
  }

  lemma {:induction false} UserWrites(items: seq<Item>, headers: seq<Desc>, me: Ref, proto: Proto, xs: seq<Setting>,
                                      k: nat, n: nat)
    requires LastSetting(xs, k, n) && xs[k].value.Literal? && me.idx < |items| &&
             UserAssigns(headers, me, proto, xs, n).Some?
    ensures AssignedAll(items, UserAssigns(headers, me, proto, xs, n).value)[me.idx].next == xs[k].value.code
    decreases n
  {
    var before, a := UserAssigns(headers, me, proto, xs, n - 1).value, UserAssign(headers, me, proto, xs[n - 1]).value;
    AssignedAppend(items, before, [a]);
    AssignedOne(AssignedAll(items, before), a);
    if k < n - 1 { UserWrites(items, headers, me, proto, xs, k, n - 1); }
  }

  /** What the user writes into the next-header field of a new header is written last, and stays. */
  lemma {:induction false} OverrideWins(items: seq<Item>, headers: seq<Desc>, idx: nat, me: Ref, it: Item,
                                        stage: Stage, k: nat)
    requires |items| == |headers| + 1 && idx <= |headers| && me.idx == idx && stage.AddStage?
    requires AddAssigns(headers, idx, me, stage).Some?
    requires LastSetting(stage.settings, k, |stage.settings|) && stage.settings[k].value.Literal?
    ensures AssignedAll(Insert(items, idx, it), AddAssigns(headers, idx, me, stage).value)[idx].next ==
            stage.settings[k].value.code
  {
    var auto := DefaultBytes(me, stage.proto) + NextOfNew(headers, idx, me, stage.proto,
                SetsNext(stage.settings)).value +
                NextOfPrevious(headers, idx, stage.proto).value;
    var user := UserAssigns(headers, me, stage.proto, stage.settings, |stage.settings|).value;
    AssignedAppend(Insert(items, idx, it), auto, user);
    UserWrites(AssignedAll(Insert(items, idx, it), auto), headers, me, stage.proto, stage.settings, k,
               |stage.settings|);
  }

  // ----- delete -----

  /** The field of the header before is set while the deleted header can still be read. */
  lemma {:induction false} DelKeepsChain(items: seq<Item>, headers: seq<Desc>, idx: nat)
    requires Tracks(items, headers) && idx < |headers| && NextAfterDelete(headers, idx).Some?
    ensures Keeps(items, Remove(AssignedAll(items, NextAfterDelete(headers, idx).value), idx))
  {
    var assigns := NextAfterDelete(headers, idx).value;
    if idx > 0 { assert Matches(items[idx - 1], headers[idx - 1]); }
    assert Matches(items[idx], headers[idx]);
    if idx + 1 < |headers| { assert Matches(items[idx + 1], headers[idx + 1]); }
    if assigns != [] { AssignedOne(items, assigns[0]); }
    var r := Remove(AssignedAll(items, assigns), idx);
    if Chained(items) {
      forall i | 0 <= i && i + 2 < |r|
        ensures Linked(r, i)
      {
        if i + 1 < idx { assert Linked(items, i); }
        if i >= idx { assert Linked(items, i + 1); }
      }
    }
  }

  // ----- one stage -----

  /** The user writes a next-header field. */
  predicate Overrides(stage: Stage) {
    match stage
    case AddStage(_, _, _, _, settings) => SetsNext(settings)
    case EditStage(changes) => exists i :: 0 <= i < |changes| && changes[i].field == Next
    case _ => false
  }

  lemma {:induction false} EditRuns(m: Path, assigns: seq<Assign>, fill: nat -> nat)
    ensures ExecAll(m, EditOf(assigns), fill) == m.(items := AssignedAll(m.items, assigns))
  {
    if assigns != [] { SoundOne(m, EditHdr(assigns), false, fill); }
  }

  lemma {:induction false} AddStageKeeps(m: Path, s: State, stage: Stage, fill: nat -> nat)
    requires stage.AddStage? && !Overrides(stage) && EmitAdd(s, stage).Some? && Fits(m, s)
    ensures Keeps(m.items, ExecAll(m, EmitAdd(s, stage).value.acts, fill).items)
  {
    var idx := AddIndex(s.headers, stage).value;
    var me, it := Ref(idx, s.nextTag), Item(s.nextTag, stage.proto, fill(s.nextTag));
    var add, meta := AddHdr(idx, stage.proto, s.nextTag), MetaActions(s.seqSet, me, stage.proto).value;
    var assigns := AddAssigns(s.headers, idx, me, stage).value;
    var m1 := m.(items := Insert(m.items, idx, it), owed := Owed(stage.proto, s.nextTag));
    SoundOne(m, add, false, fill);
    MetaSound(m1, me, stage.proto, false, fill);
    ExecAppend(m, [add], meta, fill);
    ExecAppend(m, [add] + meta, EditOf(assigns), fill);
    EditRuns(m1.(owed := None), assigns, fill);
    AddKeepsChain(m.items, s.headers, idx, me, it, stage);
  }

  lemma {:induction false} DelStageKeeps(m: Path, s: State, name: string, fill: nat -> nat)
    requires EmitDel(s, name).Some? && Fits(m, s)
    ensures Keeps(m.items, ExecAll(m, EmitDel(s, name).value.acts, fill).items)
  {
    var i := Find(s.headers, name).value;
    var hdr, assigns := RefTo(s.headers, i), NextAfterDelete(s.headers, i).value;
    var filter := FilterBefore(hdr, s.headers[i].proto);
    RefRight(m.items, s.headers, i);
    FilterSound(m, hdr, s.headers[i].proto, false, fill);
    ExecAppend(m, filter, EditOf(assigns), fill);
    ExecAppend(m, filter + EditOf(assigns), [DelHdr(hdr)], fill);
    var m0 := ExecAll(m, filter, fill);
    EditRuns(m0, assigns, fill);
    var m1 := m0.(items := AssignedAll(m.items, assigns));
    AssignsKeepHeaders(m.items, assigns);
    SoundOne(m1, DelHdr(hdr), false, fill);
    DelKeepsChain(m.items, s.headers, i);
  }

  lemma {:induction false} FieldStageKeeps(m: Path, s: State, kind: Kind, name: string, fill: nat -> nat)
    requires EmitField(s, kind, name).Some?
    ensures ExecAll(m, EmitField(s, kind, name).value.acts, fill).items == m.items
  {
    var acts := EmitField(s, kind, name).value.acts;
    SoundOne(m, acts[0], false, fill);
    assert acts == [acts[0]];
  }

  lemma {:induction false} PlainStageKeeps(m: Path, s: State, what: Plain, fill: nat -> nat)
    requires EmitPlain(s, what).Some?
    ensures ExecAll(m, EmitPlain(s, what).value.acts, fill).items == m.items
  {
    var acts := EmitPlain(s, what).value.acts;
    assert [Do(what)][1..] == [];
    if what == Send && s.due != NoCheck { assert acts[1..] == [Do(Send)]; }
  }

  lemma {:induction false} StageKeepsChain(m: Path, s: State, stage: Stage, fill: nat -> nat)
    requires !Final(stage) && !Overrides(stage) && Emit(s, stage).Some? && Fits(m, s)
    ensures Keeps(m.items, ExecAll(m, Emit(s, stage).value.acts, fill).items)
  {
    match stage
    case AddStage(_, _, _, _, _) => AddStageKeeps(m, s, stage, fill);
    case DelStage(header) => DelStageKeeps(m, s, header, fill);
    case EditStage(xs) =>
      var assigns := Changes(s.headers, xs, |xs|).value;
      EditRuns(m, assigns, fill);
      ChangesElsewhere(s.headers, xs, |xs|);
      OtherFields(m.items, assigns);
    case FieldStage(kind, header) => FieldStageKeeps(m, s, kind, header, fill);
    case PlainStage(what) => PlainStageKeeps(m, s, what, fill);
  }

  // ----- whole pipelines -----

  /** At every send and every replication of every path, each header names the next, and the last one says
      of the payload what the last header of the original packet said. */
  ghost predicate SendsLinked(origin: seq<Item>, m: Path, acts: seq<Action>, fill: nat -> nat)
    decreases acts
  {
    acts == [] ||
    ((acts[0] == Do(Send) || acts[0].Repl? ==> Chained(m.items) && SamePayloadCode(origin, m.items)) &&
     (acts[0].Repl? ==>
        forall i :: 0 <= i < |acts[0].branches| ==> SendsLinked(origin, m, acts[0].branches[i].acts, fill)) &&
     SendsLinked(origin, Exec(m, acts[0], fill), acts[1..], fill))
  }

  lemma {:induction false} LinkedAppend(origin: seq<Item>, m: Path, a: seq<Action>, b: seq<Action>, fill: nat -> nat)
    ensures SendsLinked(origin, m, a + b, fill) <==>
            SendsLinked(origin, m, a, fill) && SendsLinked(origin, ExecAll(m, a, fill), b, fill)
    decreases |a|
  {
    if a == [] {
      assert a + b == b;
    } else {
      assert (a + b)[0] == a[0] && (a + b)[1..] == a[1..] + b;
      LinkedAppend(origin, Exec(m, a[0], fill), a[1..], b, fill);
    }
  }

  predicate Quiet(a: Action) { a != Do(Send) && !a.Repl? }

  lemma {:induction false} NoSends(origin: seq<Item>, m: Path, acts: seq<Action>, fill: nat -> nat)
    requires forall i :: 0 <= i < |acts| ==> Quiet(acts[i])
    ensures SendsLinked(origin, m, acts, fill)
    decreases |acts|
  {
    if acts != [] {
      assert Quiet(acts[0]);
      NoSends(origin, Exec(m, acts[0], fill), acts[1..], fill);
    }
  }

  lemma {:induction false} SendLinked(origin: seq<Item>, m: Path, fill: nat -> nat)
    requires Chained(m.items) && SamePayloadCode(origin, m.items)
    ensures SendsLinked(origin, m, [Do(Send)], fill) && SendsLinked(origin, m, [Do(TtlCheck), Do(Send)], fill)
  {
    assert [Do(Send)][1..] == [] && [Do(TtlCheck), Do(Send)][1..] == [Do(Send)];
    assert Exec(m, Do(TtlCheck), fill).items == m.items;
  }

  lemma {:induction false} QuietStage(s: State, stage: Stage)
    requires !Final(stage) && stage != PlainStage(Send) && Emit(s, stage).Some?
    ensures forall i :: 0 <= i < |Emit(s, stage).value.acts| ==> Quiet(Emit(s, stage).value.acts[i])
  {
  }

  /** A send is the last action of its stage, and the packet is as it was before the stage. */
  lemma {:induction false} StageLinked(origin: seq<Item>, m: Path, s: State, stage: Stage, fill: nat -> nat)
    requires !Final(stage) && Emit(s, stage).Some?
    requires Chained(m.items) && SamePayloadCode(origin, m.items)
    ensures SendsLinked(origin, m, Emit(s, stage).value.acts, fill)
  {
    if stage == PlainStage(Send) {
      SendLinked(origin, m, fill);
    } else {
      QuietStage(s, stage);
      NoSends(origin, m, Emit(s, stage).value.acts, fill);
    }
  }

  predicate Untouched(stages: seq<Stage>) { forall i :: 0 <= i < |stages| ==> !Overrides(stages[i]) }
  predicate AllUntouched(env: Pipelines) { forall n :: n in env ==> Untouched(env[n]) }

  lemma {:induction false} StagesOnward(env: Pipelines, s: State, stages: seq<Stage>)
    requires stages != [] && !Final(stages[0]) && Compile(env, s, stages).Some? && Untouched(stages)
    ensures Emit(s, stages[0]).Some? && !Overrides(stages[0]) && Untouched(stages[1..])
    ensures var e := Emit(s, stages[0]).value;
            var rest := Compile(env, e.state, stages[1..]);
            rest.Some? && Compile(env, s, stages).value == e.acts + rest.value
  {
  }

  lemma {:induction false} StageOnward(origin: seq<Item>, m: Path, s: State, stage: Stage, fill: nat -> nat)
    requires !Final(stage) && !Overrides(stage) && Emit(s, stage).Some? && Fits(m, s) && Fresh(s)
    requires Chained(m.items) && SamePayloadCode(origin, m.items)
    ensures var e := Emit(s, stage).value;
            var m' := ExecAll(m, e.acts, fill);
            Fits(m', e.state) && Fresh(e.state) && Chained(m'.items) && SamePayloadCode(origin, m'.items) &&
            SendsLinked(origin, m, e.acts, fill)
  {
    EmitSound(m, s, stage, false, fill);
    StageKeepsChain(m, s, stage, fill);
    StageLinked(origin, m, s, stage, fill);
  }

  /** Where no stage writes a next-header field itself. */
  lemma {:induction false} SendsAreLinked(env: Pipelines, s: State, stages: seq<Stage>, origin: seq<Item>, m: Path,
                                          fill: nat -> nat)
    requires Compile(env, s, stages).Some? && Fits(m, s) && Fresh(s) && Untouched(stages) && AllUntouched(env)
    requires Chained(m.items) && SamePayloadCode(origin, m.items)
    ensures SendsLinked(origin, m, Compile(env, s, stages).value, fill)
    decreases Budget(s), 2, |stages|
  {
    if stages != [] {
      if Final(stages[0]) {
        FinalLinked(env, s, stages[0], origin, m, fill);
      } else {
        StagesOnward(env, s, stages);
        var e, rest := Emit(s, stages[0]).value, stages[1..];
        StageOnward(origin, m, s, stages[0], fill);
        SendsAreLinked(env, e.state, rest, origin, ExecAll(m, e.acts, fill), fill);
        LinkedAppend(origin, m, e.acts, Compile(env, e.state, rest).value, fill);
      }
    }
  }

  lemma {:induction false} InlinedLinked(env: Pipelines, s: State, pipe: string, origin: seq<Item>, m: Path,
                                         fill: nat -> nat)
    requires Inlined(env, s, pipe).Some? && Fits(m, s) && Fresh(s) && AllUntouched(env)
    requires Chained(m.items) && SamePayloadCode(origin, m.items)
    ensures SendsLinked(origin, m, Inlined(env, s, pipe).value, fill)
    decreases Budget(s), 0, 0
  {
    SendsAreLinked(env, s.(depth := s.depth + 1), env[pipe], origin, m, fill);
  }

  lemma {:induction false} FinalLinked(env: Pipelines, s: State, stage: Stage, origin: seq<Item>, m: Path,
                                       fill: nat -> nat)
    requires Final(stage) && CompileFinal(env, s, stage).Some? && Fits(m, s) && Fresh(s) && AllUntouched(env)
    requires Chained(m.items) && SamePayloadCode(origin, m.items)
    ensures SendsLinked(origin, m, CompileFinal(env, s, stage).value, fill)
    decreases Budget(s), 1, 0
  {
    match stage
    case PlainStage(_) => NoSends(origin, m, [Do(Drop)], fill);
    case JumpStage(pipe) => InlinedLinked(env, s, pipe, origin, m, fill);
    case ElimStage(pipe) =>
      InlinedLinked(env, s, pipe, origin, m, fill);
      NoSends(origin, m, [Elim], fill);
      LinkedAppend(origin, m, [Elim], Inlined(env, s, pipe).value, fill);
      assert ExecAll(m, [Elim], fill) == m by { assert [Elim][1..] == []; }
    case ReplStage(pipes) =>
      var bs := Branches(env, s, pipes, |pipes|).value;
      forall i | 0 <= i < |bs|
        ensures SendsLinked(origin, m, bs[i].acts, fill)
      {
        BranchAt(env, s, pipes, |pipes|, i);
        InlinedLinked(env, Copied(s), pipes[i], origin, m, fill);
      }
      assert [Repl(bs)][1..] == [];
  }
}
