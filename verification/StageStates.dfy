/** The compiler as it works: a state updated in place, action lists built newest first (conf_actions.c). */
module StageStates {
  import opened Basics
  import opened Protocols
  import opened Actions
  import opened Compiler

  // ----- lists built at the front -----

  function Reversed<T>(s: seq<T>): (r: seq<T>)
    ensures |r| == |s|
    decreases |s|
  {
    if s == [] then [] else Reversed(s[1..]) + [s[0]]
  }

  lemma {:induction false} ReversedAppend<T>(a: seq<T>, b: seq<T>)
    ensures Reversed(a + b) == Reversed(b) + Reversed(a)
    decreases |a|
  {
    if a == [] {
      assert a + b == b;
    } else {
      assert (a + b)[1..] == a[1..] + b;
      ReversedAppend(a[1..], b);
    }
  }

  lemma {:induction false} ReversedOne<T>(x: T)
    ensures Reversed([x]) == [x]
  {
  }

  lemma {:induction false} ReversedPush<T>(a: seq<T>, x: T)
    ensures Reversed(a + [x]) == [x] + Reversed(a)
  {
    ReversedAppend(a, [x]);
    ReversedOne(x);
  }

  lemma {:induction false} ReversedInFront<T>(a: seq<T>, b: seq<T>, rest: seq<T>)
    ensures Reversed(b) + (Reversed(a) + rest) == Reversed(a + b) + rest
  {
    ReversedAppend(a, b);
  }

  lemma {:induction false} ReversedTwice<T>(s: seq<T>)
    ensures Reversed(Reversed(s)) == s
    decreases |s|
  {
    if s != [] {
      ReversedTwice(s[1..]);
      ReversedPush(Reversed(s[1..]), s[0]);
    }
  }

  method ReverseList<T>(s: seq<T>) returns (r: seq<T>)
    ensures r == Reversed(s)
  {
    r := [];
    for i := 0 to |s|
      invariant r == Reversed(s[..i])
    {
      assert s[..i + 1] == s[..i] + [s[i]];
      ReversedPush(s[..i], s[i]);
      r := [s[i]] + r;
    }
    assert s[..|s|] == s;
  }

  // ----- the parts of an add stage -----

  method FindByName(headers: seq<Desc>, name: string, from: nat) returns (r: Option<nat>)
    requires from <= |headers|
    ensures r == FirstFrom(headers, name, from)
  {
    var i := from;
    while i < |headers|
      invariant from <= i <= |headers|
      invariant FirstFrom(headers, name, from) == FirstFrom(headers, name, i)
    {
      if headers[i].name == name { return Some(i); }
      i := i + 1;
    }
    return None;
  }

  method FindUnique(headers: seq<Desc>, name: string) returns (r: Option<nat>)
    ensures r == Find(headers, name)
  {
    FirstFromIsFirst(headers, name, 0);
    r := FindByName(headers, name, 0);
    if r.Some? {
      var again := FindByName(headers, name, r.value + 1);
      if again.Some? { r := None; }
    }
  }

  function Retarget(a: Assign, idx: nat): Assign
  {
    a.(dst := Ref(idx, a.dst.tag))
  }

  function RetargetAll(assigns: seq<Assign>, idx: nat): (r: seq<Assign>)
    ensures |r| == |assigns|
    ensures forall i :: 0 <= i < |assigns| ==> r[i] == Retarget(assigns[i], idx)
  {
    seq(|assigns|, i requires 0 <= i < |assigns| => Retarget(assigns[i], idx))
  }

  lemma {:induction false} RetargetPush(assigns: seq<Assign>, a: Assign, idx: nat)
    ensures RetargetAll(assigns + [a], idx) == RetargetAll(assigns, idx) + [Retarget(a, idx)]
  {
  }

  lemma {:induction false} RetargetedOne(headers: seq<Desc>, tag: nat, idx: nat, proto: Proto, x: Setting)
    ensures var a, b := UserAssign(headers, Ref(0, tag), proto, x), UserAssign(headers, Ref(idx, tag), proto, x);
            (a.Some? <==> b.Some?) && (a.Some? ==> b.value == Retarget(a.value, idx))
  {
  }

  /** The user's assignments are read before the position of the new header is known; only their left sides
      are corrected afterwards. */
  lemma {:induction false} RetargetedUser(headers: seq<Desc>, tag: nat, idx: nat, proto: Proto, xs: seq<Setting>,
                                          n: nat)
    requires n <= |xs|
    ensures var a, b := UserAssigns(headers, Ref(0, tag), proto, xs, n), UserAssigns(headers, Ref(idx, tag), proto,
            xs, n);
            (a.Some? <==> b.Some?) && (a.Some? ==> b.value == RetargetAll(a.value, idx))
    decreases n
  {
    if n > 0 {
      RetargetedUser(headers, tag, idx, proto, xs, n - 1);
      var before, a := UserAssigns(headers, Ref(0, tag), proto, xs, n - 1), UserAssign(headers, Ref(0, tag), proto,
                       xs[n - 1]);
      RetargetedOne(headers, tag, idx, proto, xs[n - 1]);
      if before.Some? && a.Some? { RetargetPush(before.value, a.value, idx); }
    }
  }

  lemma {:induction false} RetargetReversed(assigns: seq<Assign>, idx: nat)
    ensures RetargetAll(Reversed(assigns), idx) == Reversed(RetargetAll(assigns, idx))
    decreases |assigns|
  {
    if assigns != [] {
      RetargetReversed(assigns[1..], idx);
      assert RetargetAll(assigns, idx)[1..] == RetargetAll(assigns[1..], idx);
    }
  }

  method ReadSettings(headers: seq<Desc>, tag: nat, proto: Proto, xs: seq<Setting>)
    returns (ok: bool, pending: seq<Assign>)
    ensures ok <==> UserAssigns(headers, Ref(0, tag), proto, xs, |xs|).Some?
    ensures ok ==> pending == Reversed(UserAssigns(headers, Ref(0, tag), proto, xs, |xs|).value)
  {
    pending := [];
    for i := 0 to |xs|
      invariant var u := UserAssigns(headers, Ref(0, tag), proto, xs, i); u.Some? && pending == Reversed(u.value)
    {
      var a := UserAssign(headers, Ref(0, tag), proto, xs[i]);
      if a.None? {
        UserFails(headers, Ref(0, tag), proto, xs, i + 1, |xs|);
        return false, pending;
      }
      ReversedPush(UserAssigns(headers, Ref(0, tag), proto, xs, i).value, a.value);
      pending := [a.value] + pending;
    }
    ok := true;
  }

  lemma {:induction false} UserFails(headers: seq<Desc>, me: Ref, proto: Proto, xs: seq<Setting>, k: nat, n: nat)
    requires k <= n <= |xs| && UserAssigns(headers, me, proto, xs, k).None?
    ensures UserAssigns(headers, me, proto, xs, n).None?
    decreases n
  {
    if k < n { UserFails(headers, me, proto, xs, k, n - 1); }
  }

  method FixTargets(pending: seq<Assign>, idx: nat) returns (r: seq<Assign>)
    ensures r == RetargetAll(pending, idx)
  {
    r := pending;
    for i := 0 to |pending|
      invariant |r| == |pending|
      invariant forall j :: 0 <= j < i ==> r[j] == Retarget(pending[j], idx)
      invariant forall j :: i <= j < |r| ==> r[j] == pending[j]
    {
      r := r[i := Retarget(r[i], idx)];
    }
  }

  /** The user's assignments of an add stage, newest first, with their left sides corrected. */
  method ReadUser(headers: seq<Desc>, me: Ref, stage: Stage) returns (ok: bool, pending: seq<Assign>)
    requires stage.AddStage?
    ensures var user := UserAssigns(headers, me, stage.proto, stage.settings, |stage.settings|);
            (ok <==> user.Some?) && (ok ==> pending == Reversed(user.value))
  {
    ok, pending := ReadSettings(headers, me.tag, stage.proto, stage.settings);
    RetargetedUser(headers, me.tag, me.idx, stage.proto, stage.settings, |stage.settings|);
    if ok {
      RetargetReversed(UserAssigns(headers, Ref(0, me.tag), stage.proto, stage.settings, |stage.settings|).value,
                       me.idx);
      pending := FixTargets(pending, me.idx);
    }
  }

  method UserSets(xs: seq<Setting>) returns (found: bool)
    ensures found <==> SetsNext(xs)
  {
    for i := 0 to |xs|
      invariant forall j :: 0 <= j < i ==> xs[j].field != Next
    {
      if xs[i].field == Next { return true; }
    }
    return false;
  }

  /** The assignment list of an add, each part put in front of the ones before it, then turned round. */
  method AssembleEdit(headers: seq<Desc>, idx: nat, me: Ref, stage: Stage, pending: seq<Assign>)
    returns (ok: bool, edit: seq<Assign>)
    requires stage.AddStage? && idx <= |headers|
    requires var user := UserAssigns(headers, me, stage.proto, stage.settings, |stage.settings|);
             user.Some? && pending == Reversed(user.value)
    ensures ok <==> AddAssigns(headers, idx, me, stage).Some?
    ensures ok ==> edit == AddAssigns(headers, idx, me, stage).value
  {
    var userSets := UserSets(stage.settings);
    var mine := NextOfNew(headers, idx, me, stage.proto, userSets);
    var previous := NextOfPrevious(headers, idx, stage.proto);
    if mine.None? || previous.None? { return false, []; }
    var first := DefaultBytes(me, stage.proto);
    edit := mine.value + first;
    edit := previous.value + edit;
    edit := pending + edit;
    ghost var user := UserAssigns(headers, me, stage.proto, stage.settings, |stage.settings|).value;
    BuiltInFront(first, mine.value, previous.value, user);
    edit := ReverseList(edit);
    ok := true;
  }

  lemma {:induction false} ShortIsItsReverse<T>(s: seq<T>)
    requires |s| <= 1
    ensures Reversed(s) == s
  {
    if |s| == 1 { ReversedOne(s[0]); assert s == [s[0]]; }
  }

  lemma {:induction false} BuiltInFront<T>(a: seq<T>, b: seq<T>, c: seq<T>, d: seq<T>)
    requires |a| <= 1 && |b| <= 1 && |c| <= 1
    ensures Reversed(Reversed(d) + (c + (b + a))) == a + b + c + d
  {
    ShortIsItsReverse(a);
    ShortIsItsReverse(b);
    ShortIsItsReverse(c);
    ReversedTwice(d);
    ReversedAppend(Reversed(d), c + (b + a));
    ReversedAppend(c, b + a);
    ReversedAppend(b, a);
  }

  // ----- edit -----

  lemma {:induction false} ChangesFail(headers: seq<Desc>, xs: seq<Change>, k: nat, n: nat)
    requires k <= n <= |xs| && Changes(headers, xs, k).None?
    ensures Changes(headers, xs, n).None?
    decreases n
  {
    if k < n { ChangesFail(headers, xs, k, n - 1); }
  }

  method ReadChanges(headers: seq<Desc>, xs: seq<Change>) returns (ok: bool, assigns: seq<Assign>)
    ensures ok <==> Changes(headers, xs, |xs|).Some?
    ensures ok ==> assigns == Reversed(Changes(headers, xs, |xs|).value)
  {
    assigns := [];
    for i := 0 to |xs|
      invariant var u := Changes(headers, xs, i); u.Some? && assigns == Reversed(u.value)
    {
      var a := ChangeOf(headers, xs[i]);
      if a.None? {
        ChangesFail(headers, xs, i + 1, |xs|);
        return false, assigns;
      }
      ReversedPush(Changes(headers, xs, i).value, a.value);
      assigns := [a.value] + assigns;
    }
    ok := true;
  }

  // ----- actions on a field -----

  method FindIp(headers: seq<Desc>, n: nat) returns (r: Option<nat>)
    requires n <= |headers|
    ensures r == LastIp(headers, n)
  {
    r := None;
    for i := 0 to n
      invariant r == LastIp(headers, i)
    {
      if IsIp(headers[i]) { r := Some(i); }
    }
  }

  method FindPayload(headers: seq<Desc>) returns (r: Ref)
    ensures r == PayloadFrom(headers, 0)
  {
    var i := 0;
    while i < |headers| && headers[i].proto != Payload
      invariant 0 <= i <= |headers| && PayloadFrom(headers, 0) == PayloadFrom(headers, i)
    {
      i := i + 1;
    }
    return if i < |headers| then RefTo(headers, i) else Ref(i, 0);
  }

  method FindOther(headers: seq<Desc>, kind: Kind, at: nat) returns (r: Option<Option<Ref>>)
    requires at < |headers|
    ensures r == OtherHeader(headers, kind, at)
  {
    r := Some(None);
    if NeedsIp(kind, headers[at].proto) {
      var ip := FindIp(headers, at);
      r := if ip.None? then None else Some(Some(RefTo(headers, ip.value)));
    } else if kind == SetLength {
      var payload := FindPayload(headers);
      r := Some(Some(payload));
    }
  }

  // ----- the state -----

  function Prefixed(done: seq<Action>, rest: Option<seq<Action>>): Option<seq<Action>> {
    if rest.None? then None else Some(done + rest.value)
  }

  class StageState {
    var headers: seq<Desc>
    var actions: seq<Action> // the newest first
    var seqSet: bool
    var ttlSet: bool
    var due: Check
    var hadFinal: bool
    var nextTag: nat
    const depth: nat

    function View(): State
      reads this
    {
      State(headers, seqSet, ttlSet, due, depth, nextTag)
    }

    constructor (s: State)
      ensures View() == s && actions == [] && !hadFinal
    {
      headers, seqSet, ttlSet, due, nextTag, depth := s.headers, s.seqSet, s.ttlSet, s.due, s.nextTag, s.depth;
      actions, hadFinal := [], false;
    }

    /** The actions of the stage are on the list, the state is the stage's. */
    twostate predicate Took(e: Emitted)
      reads this
    {
      View() == e.state && actions == Reversed(e.acts) + old(actions) && hadFinal == old(hadFinal)
    }

    method Push(a: Action)
      modifies this`actions
      ensures actions == [a] + old(actions)
    {
      actions := [a] + actions;
    }

    /** The newest action changes places with the one before it. */
    method SwapWithNext()
      modifies this`actions
      ensures actions == if |old(actions)| < 2 then old(actions)
                         else [old(actions)[1], old(actions)[0]] + old(actions)[2..]
    {
      if |actions| >= 2 {
        actions := [actions[1], actions[0]] + actions[2..];
      }
    }

    /** The add itself, with the sequence number and the timestamp of the new header. */
    method PushAdd(me: Ref, proto: Proto) returns (ok: bool)
      modifies this`actions
      ensures ok <==> MetaActions(seqSet, me, proto).Some?
      ensures ok ==>
        actions == Reversed([AddHdr(me.idx, proto, me.tag)] + MetaActions(seqSet, me, proto).value) + old(actions)
    {
      ghost var before := actions;
      Push(AddHdr(me.idx, proto, me.tag));
      if HasSeq(proto) {
        if !seqSet { return false; }
        Push(OnField(WriteSeq, me, None));
      }
      if HasTstamp(proto) {
        Push(OnField(WriteTstamp, me, None));
      }
      AddPushed(before, AddHdr(me.idx, proto, me.tag), me, proto, seqSet);
      ok := true;
    }

    method PushEdit(edit: seq<Assign>, ghost done: seq<Action>, ghost before: seq<Action>)
      requires actions == Reversed(done) + before
      modifies this`actions
      ensures actions == Reversed(done + EditOf(edit)) + before
    {
      if edit != [] {
        ReversedPush(done, EditHdr(edit));
        Push(EditHdr(edit));
      } else {
        assert done + EditOf(edit) == done;
      }
    }

    /** The actions of an add, once its position is known and the user's assignments are read. */
    method PushAll(me: Ref, stage: Stage, pending: seq<Assign>) returns (ok: bool)
      requires stage.AddStage? && me.idx <= |headers|
      requires var user := UserAssigns(headers, me, stage.proto, stage.settings, |stage.settings|);
               user.Some? && pending == Reversed(user.value)
      modifies this`actions
      ensures var meta, assigns := MetaActions(seqSet, me, stage.proto), AddAssigns(headers, me.idx, me, stage);
              (ok <==> meta.Some? && assigns.Some?) &&
              (ok ==> actions == Reversed([AddHdr(me.idx, stage.proto, me.tag)] + meta.value + EditOf(assigns.value)) +
                                 old(actions))
    {
      var meta := PushAdd(me, stage.proto);
      if !meta { return false; }
      var fine, edit := AssembleEdit(headers, me.idx, me, stage, pending);
      if !fine { return false; }
      PushEdit(edit, [AddHdr(me.idx, stage.proto, me.tag)] + MetaActions(seqSet, me, stage.proto).value, old(actions));
      ok := true;
    }

    method ProcessAdd(stage: Stage) returns (ok: bool)
      requires stage.AddStage?
      modifies this
      ensures ok <==> EmitAdd(old(View()), stage).Some?
      ensures ok ==> Took(EmitAdd(old(View()), stage).value)
    {
      ghost var goal := EmitAdd(View(), stage);
      var pos := FindUnique(headers, stage.pos);
      if pos.None? { return false; }
      var me := Ref(if stage.after then pos.value + 1 else pos.value, nextTag);
      AddParts(View(), stage, me);
      var read, pending := ReadUser(headers, me, stage);
      if !read { return false; }
      ok := PushAll(me, stage, pending);
      if ok {
        headers := Insert(headers, me.idx, Desc(stage.name, stage.proto, nextTag));
        nextTag := nextTag + 1;
        assert View() == goal.value.state;
      }
    }

    /** The delete, then what must come before it, each moved there by a swap. */
    method PushDel(hdr: Ref, proto: Proto)
      modifies this`actions
      ensures actions == [DelHdr(hdr)] + (FilterBefore(hdr, proto) + old(actions))
    {
      Push(DelHdr(hdr));
      if HasSeq(proto) {
        Push(OnField(FilterOam, hdr, None));
        SwapWithNext();
      }
    }

    method PushBeforeLast(edit: seq<Assign>, ghost last: Action, ghost rest: seq<Action>)
      requires actions == [last] + rest
      modifies this`actions
      ensures actions == [last] + (EditOf(edit) + rest)
    {
      if edit != [] {
        Push(EditHdr(edit));
        SwapWithNext();
      } else {
        assert EditOf(edit) + rest == rest;
      }
    }

    method ProcessDel(name: string) returns (ok: bool)
      modifies this
      ensures ok <==> EmitDel(old(View()), name).Some?
      ensures ok ==> Took(EmitDel(old(View()), name).value)
    {
      var at := FindUnique(headers, name);
      if at.None? { return false; }
      var hdr, proto := RefTo(headers, at.value), headers[at.value].proto;
      PushDel(hdr, proto);
      if due == Due(hdr.tag) { due := NoCheck; }
      var next := NextAfterDelete(headers, at.value);
      if next.None? { return false; }
      headers := Remove(headers, at.value);
      PushBeforeLast(next.value, DelHdr(hdr), FilterBefore(hdr, proto) + old(actions));
      DelPushed(old(actions), FilterBefore(hdr, proto), EditOf(next.value), DelHdr(hdr));
      ok := true;
    }

    method ProcessEdit(xs: seq<Change>) returns (ok: bool)
      modifies this
      ensures ok <==> EmitEdit(old(View()), xs).Some?
      ensures ok ==> Took(EmitEdit(old(View()), xs).value)
    {
      var read, assigns := ReadChanges(headers, xs);
      if !read || assigns == [] { return false; }
      ReversedTwice(Changes(headers, xs, |xs|).value);
      assigns := ReverseList(assigns);
      ReversedOne(EditHdr(assigns));
      Push(EditHdr(assigns));
      ok := true;
    }

    method ProcessField(kind: Kind, name: string) returns (ok: bool)
      modifies this
      ensures ok <==> EmitField(old(View()), kind, name).Some?
      ensures ok ==> Took(EmitField(old(View()), kind, name).value)
    {
      var at := FindUnique(headers, name);
      if at.None? || !HasField(kind, headers[at.value].proto) || (kind == WriteSeq && !seqSet) { return false; }
      var other := FindOther(headers, kind, at.value);
      if other.None? { return false; }
      PushField(OnField(kind, RefTo(headers, at.value), other.value));
      ok := true;
    }

    method PushField(a: Action)
      requires a.OnField?
      modifies this
      ensures Took(Emitted(old(View()).(seqSet := old(seqSet) || a.kind == ReadSeq, ttlSet := old(ttlSet) ||
              a.kind == TtlReduce), [a]))
    {
      if a.kind == ReadSeq { seqSet := true; }
      if a.kind == TtlReduce { ttlSet := true; }
      Push(a);
      ReversedOne(a);
    }

    method ProcessPlain(what: Plain) returns (ok: bool)
      requires what != Drop
      modifies this
      ensures ok <==> EmitPlain(old(View()), what).Some?
      ensures ok ==> Took(EmitPlain(old(View()), what).value)
    {
      if (what == Pof && !seqSet) || (what == TtlCheck && !ttlSet) { return false; }
      ReversedOne(Do(what));
      Push(Do(what));
      if what == SeqGen { seqSet := true; }
      if what == Send && due != NoCheck {
        if !ttlSet { return false; }
        Push(Do(TtlCheck));
        SwapWithNext();
        due := NoCheck;
        ReversedPush([Do(TtlCheck)], Do(Send));
        ReversedOne(Do(TtlCheck));
        assert [Do(TtlCheck)] + [Do(Send)] == [Do(TtlCheck), Do(Send)];
      }
      ok := true;
    }

    /** The stages of a pipeline, one level deeper. */
    method CompileTarget(env: Pipelines, pipe: string) returns (ok: bool)
      requires !hadFinal && actions == []
      modifies this
      ensures ok <==> Inlined(env, old(View()), pipe).Some?
      ensures ok ==> actions == Reversed(Inlined(env, old(View()), pipe).value)
      decreases Budget(View()), 0, 0
    {
      if pipe !in env || depth > MAX_DEPTH { return false; }
      var deeper := new StageState(View().(depth := depth + 1));
      ok := deeper.ForEachStages(env, env[pipe]);
      ghost var r := Compile(env, View().(depth := depth + 1), env[pipe]);
      assert ok ==> deeper.actions == Reversed(r.value);
      headers, nextTag, actions := deeper.headers, deeper.nextTag, deeper.actions;
      ok := ok && actions != [];
    }

    /** Compile the pipeline in place. Headers are not copied; nothing may follow. */
    method ProcessJump(env: Pipelines, pipe: string) returns (ok: bool)
      requires !hadFinal
      modifies this
      ensures ok <==> Inlined(env, old(View()), pipe).Some?
      ensures ok ==> hadFinal && actions == Reversed(Inlined(env, old(View()), pipe).value) + old(actions)
      decreases Budget(View()), 1, 0
    {
      Push(Jump(pipe));
      var target := new StageState(View());
      ok := target.CompileTarget(env, pipe);
      if !ok { return; }
      headers, nextTag := target.headers, target.nextTag;
      actions := target.actions + actions[1..];
      hadFinal := true;
      ok := true;
    }

    /** Compile each branch on a copy of the headers. */
    method ProcessRepl(env: Pipelines, pipes: seq<string>) returns (ok: bool)
      requires !hadFinal
      modifies this
      ensures ok <==> CompileFinal(env, old(View()), ReplStage(pipes)).Some?
      ensures ok ==>
        hadFinal && actions == Reversed(CompileFinal(env, old(View()), ReplStage(pipes)).value) + old(actions)
      decreases Budget(View()), 2, 0
    {
      var branches: seq<Branch> := [];
      for i := 0 to |pipes|
        invariant View() == old(View()) && actions == old(actions) && !hadFinal
        invariant var r := Branches(env, View(), pipes, i); r.Some? && branches == Reversed(r.value)
      {
        var fine, b := CompileBranch(env, pipes[i]);
        if !fine {
          BranchFails(env, View(), pipes, i + 1, |pipes|);
          return false;
        }
        ReversedPush(Branches(env, View(), pipes, i).value, Branch(b));
        branches := [Branch(b)] + branches;
      }
      if branches == [] { return false; }
      ReversedTwice(Branches(env, View(), pipes, |pipes|).value);
      branches := ReverseList(branches);
      ReversedOne(Repl(branches));
      Push(Repl(branches));
      hadFinal := true;
      ok := true;
    }

    method CompileBranch(env: Pipelines, pipe: string) returns (ok: bool, acts: seq<Action>)
      ensures ok <==> Inlined(env, Copied(View()), pipe).Some?
      ensures ok ==> acts == Inlined(env, Copied(View()), pipe).value
      decreases Budget(View()), 1, 0
    {
      var target := new StageState(Copied(View()));
      ok := target.CompileTarget(env, pipe);
      if !ok { return false, []; }
      ReversedTwice(Inlined(env, Copied(View()), pipe).value);
      acts := ReverseList(target.actions);
    }

    method ProcessFinal(env: Pipelines, stage: Stage) returns (ok: bool)
      requires !hadFinal && Final(stage)
      modifies this
      ensures ok <==> CompileFinal(env, old(View()), stage).Some?
      ensures ok ==> hadFinal && actions == Reversed(CompileFinal(env, old(View()), stage).value) + old(actions)
      decreases Budget(View()), 3, 0
    {
      match stage
      case PlainStage(what) =>
        ReversedOne(Do(Drop));
        Push(Do(Drop));
        hadFinal := true;
        ok := true;
      case JumpStage(pipe) => ok := ProcessJump(env, pipe);
      case ElimStage(pipe) =>
        if !seqSet { return false; }
        Push(Elim);
        ok := ProcessJump(env, pipe);
        if ok { ReversedAppend([Elim], Inlined(env, old(View()), pipe).value); ReversedOne(Elim); }
      case ReplStage(pipes) => ok := ProcessRepl(env, pipes);
    }

    method ProcessOpen(stage: Stage) returns (ok: bool)
      requires !Final(stage)
      modifies this
      ensures ok <==> Emit(old(View()), stage).Some?
      ensures ok ==> Took(Emit(old(View()), stage).value)
    {
      match stage
      case AddStage(_, _, _, _, _) => ok := ProcessAdd(stage);
      case DelStage(header) => ok := ProcessDel(header);
      case EditStage(changes) => ok := ProcessEdit(changes);
      case FieldStage(kind, header) => ok := ProcessField(kind, header);
      case PlainStage(what) => ok := ProcessPlain(what);
    }

    /** process_stage: nothing may come after a final stage. */
    method ProcessStage(env: Pipelines, stage: Stage) returns (ok: bool, ghost more: seq<Action>)
      modifies this
      ensures old(hadFinal) ==> !ok
      ensures !old(hadFinal) ==> (ok <==> Processed(env, old(View()), stage).Some?)
      ensures ok ==> Processed(env, old(View()), stage).Some? && more == Processed(env, old(View()), stage).value.acts
      ensures ok ==> actions == Reversed(more) + old(actions) && hadFinal == Final(stage)
      ensures ok && !Final(stage) ==> View() == Processed(env, old(View()), stage).value.state
      decreases Budget(View()), 4, 0
    {
      if hadFinal { return false, []; }
      if Final(stage) {
        ok := ProcessFinal(env, stage);
      } else {
        ok := ProcessOpen(stage);
      }
      more := if ok then Processed(env, old(View()), stage).value.acts else [];
    }

    /** Stage after stage, until one fails or comes after a final one. */
    method ForEachStages(env: Pipelines, stages: seq<Stage>) returns (ok: bool)
      requires !hadFinal
      modifies this
      ensures ok <==> Compile(env, old(View()), stages).Some?
      ensures ok ==> actions == Reversed(Compile(env, old(View()), stages).value) + old(actions)
      decreases Budget(View()), 5, 0
    {
      ghost var r, before := Compile(env, View(), stages), actions;
      ghost var done: seq<Action> := [];
      CompileFrom0(env, View(), stages);
      for i := 0 to |stages|
        invariant actions == Reversed(done) + before
        invariant Remaining(r, done, hadFinal, env, View(), stages, i)
      {
        ghost var v, was := View(), hadFinal;
        ghost var more;
        ok, more := ProcessStage(env, stages[i]);
        if !ok {
          StageFails(r, done, was, env, v, stages, i);
          return;
        }
        StageRemains(r, done, env, v, View(), stages, i);
        ReversedInFront(done, more, before);
        done := done + more;
      }
      NoneRemains(r, done, hadFinal, env, View(), stages);
      ok := true;
    }
  }

  /** One stage, final or not. */
  function Processed(env: Pipelines, s: State, stage: Stage): Option<Emitted> {
    if !Final(stage) then Emit(s, stage) else
    var r := CompileFinal(env, s, stage);
    if r.None? then None else Some(Emitted(s, r.value))
  }

  /** The result r is what has been emitted, followed by what the remaining stages give. */
  ghost predicate Remaining(r: Option<seq<Action>>, done: seq<Action>, hadFinal: bool,
                            env: Pipelines, s: State, stages: seq<Stage>, i: nat)
    requires i <= |stages|
  {
    r == if hadFinal then (if i == |stages| then Some(done) else None) else Prefixed(done, Compile(env, s, stages[i..]))
  }

  lemma {:induction false} NoneRemains(r: Option<seq<Action>>, done: seq<Action>, hadFinal: bool,
                                       env: Pipelines, s: State, stages: seq<Stage>)
    requires Remaining(r, done, hadFinal, env, s, stages, |stages|)
    ensures r == Some(done)
  {
    assert stages[|stages|..] == [];
    assert done + [] == done;
  }

  lemma {:induction false} StageFails(r: Option<seq<Action>>, done: seq<Action>, hadFinal: bool,
                                      env: Pipelines, s: State, stages: seq<Stage>, i: nat)
    requires i < |stages| && Remaining(r, done, hadFinal, env, s, stages, i)
    requires hadFinal || Processed(env, s, stages[i]).None?
    ensures r.None?
  {
    if !hadFinal { CompileAt(env, s, stages, i); }
  }

  lemma {:induction false} StageRemains(r: Option<seq<Action>>, done: seq<Action>,
                                        env: Pipelines, s: State, s': State, stages: seq<Stage>, i: nat)
    requires i < |stages| && Remaining(r, done, false, env, s, stages, i) && Processed(env, s, stages[i]).Some?
    requires !Final(stages[i]) ==> s' == Processed(env, s, stages[i]).value.state
    ensures Remaining(r, done + Processed(env, s, stages[i]).value.acts, Final(stages[i]), env, s', stages, i + 1)
  {
    CompileAt(env, s, stages, i);
    var acts := Processed(env, s, stages[i]).value.acts;
    if !Final(stages[i]) { PrefixedTwice(done, acts, Compile(env, s', stages[i + 1..])); }
  }

  lemma {:induction false} CompileFrom0(env: Pipelines, s: State, stages: seq<Stage>)
    ensures Compile(env, s, stages) == Prefixed([], Compile(env, s, stages[0..])) && stages[|stages|..] == []
  {
    assert stages[0..] == stages;
    var r := Compile(env, s, stages);
    if r.Some? { assert [] + r.value == r.value; }
  }

  lemma {:induction false} CompileAt(env: Pipelines, s: State, stages: seq<Stage>, i: nat)
    requires i < |stages|
    ensures Final(stages[i]) ==>
      Compile(env, s, stages[i..]) == if i + 1 < |stages| then None else CompileFinal(env, s, stages[i])
    ensures !Final(stages[i]) ==>
      Compile(env, s, stages[i..]) == var e := Emit(s, stages[i]);
        if e.None? then None else Prefixed(e.value.acts, Compile(env, e.value.state, stages[i + 1..]))
  {
    assert stages[i..][1..] == stages[i + 1..];
  }

  lemma {:induction false} PrefixedTwice(a: seq<Action>, b: seq<Action>, rest: Option<seq<Action>>)
    ensures Prefixed(a, Prefixed(b, rest)) == Prefixed(a + b, rest)
  {
    if rest.Some? { assert a + (b + rest.value) == a + b + rest.value; }
  }

  lemma {:induction false} BranchFails(env: Pipelines, s: State, pipes: seq<string>, k: nat, n: nat)
    requires k <= n <= |pipes| && Branches(env, s, pipes, k).None?
    ensures Branches(env, s, pipes, n).None?
    decreases n
  {
    if k < n { BranchFails(env, s, pipes, k, n - 1); }
  }

  /** parse_actions_line: the state machine computes the compiled stream, or fails where that fails. */
  method ParseActionsLine(env: Pipelines, headers: seq<(string, Proto)>, stages: seq<Stage>)
    returns (r: Option<seq<Action>>)
    ensures r == CompileStream(env, headers, stages)
  {
    var st := new StageState(Start(headers));
    ghost var auto := AutoReduce(headers);
    if StartsWithTtl(headers) {
      st.Push(OnField(TtlReduce, Ref(0, 1), None));
    }
    ShortIsItsReverse(auto);
    assert st.actions == auto;
    var ok := st.ForEachStages(env, stages);
    if !ok { return None; }
    ghost var acts := Compile(env, Start(headers), stages).value;
    ReversedAppend(auto, acts);
    ReversedTwice(auto + acts);
    if st.actions == [] { return None; }
    var forward := ReverseList(st.actions);
    return Some(forward);
  }

  /** What an add stage emits, once the position is known. */
  lemma {:induction false} AddParts(s: State, stage: Stage, me: Ref)
    requires stage.AddStage? && AddIndex(s.headers, stage) == Some(me.idx) && me.tag == s.nextTag
    ensures me.idx <= |s.headers|
    ensures var r, meta := EmitAdd(s, stage), MetaActions(s.seqSet, me, stage.proto);
            var assigns := AddAssigns(s.headers, me.idx, me, stage);
            (assigns.Some? ==> UserAssigns(s.headers, me, stage.proto, stage.settings, |stage.settings|).Some?) &&
            (r.Some? <==> meta.Some? && assigns.Some?) &&
            (r.Some? ==> r.value.acts == [AddHdr(me.idx, stage.proto, me.tag)] + meta.value + EditOf(assigns.value))
  {
  }

  lemma {:induction false} AddPushed(before: seq<Action>, add: Action, me: Ref, proto: Proto, seqSet: bool)
    requires MetaActions(seqSet, me, proto).Some?
    ensures var a := [add] + before;
            var b := if HasSeq(proto) then [OnField(WriteSeq, me, None)] + a else a;
            var c := if HasTstamp(proto) then [OnField(WriteTstamp, me, None)] + b else b;
            c == Reversed([add] + MetaActions(seqSet, me, proto).value) + before
  {
    var x := if HasSeq(proto) then [OnField(WriteSeq, me, None)] else [];
    var y := if HasTstamp(proto) then [OnField(WriteTstamp, me, None)] else [];
    ShortIsItsReverse([add]);
    ShortIsItsReverse(x);
    ShortIsItsReverse(y);
    ReversedAppend([add], x + y);
    ReversedAppend(x, y);
  }

  lemma {:induction false} DelPushed(before: seq<Action>, filter: seq<Action>, edit: seq<Action>, del: Action)
    requires |filter| <= 1 && |edit| <= 1
    ensures Reversed(filter + edit + [del]) + before == [del] + (edit + (filter + before))
  {
    ShortIsItsReverse(filter);
    ShortIsItsReverse(edit);
    ReversedPush(filter + edit, del);
    ReversedAppend(filter, edit);
  }
}
