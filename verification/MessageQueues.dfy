/** The message queue between threads (thread_utils.c), as interleaved steps of any number of threads. */
module MessageQueues {
  import opened Basics

  datatype Wait = Try | Timed | TimedAgain | Forever

  /** Where a thread stands in messagequeue_push or messagequeue_pop. A popper may hold a token, that is,
      have decremented the semaphore. */
  datatype Place<T> =
    | Idle
    | PushLock(x: T) | PushPost(x: T) | PushEnqueue(x: T) | PushUnlock
    | PopWait(how: Wait) | PopLock(token: bool) | PopTake(token: bool) | PopUnlock(got: Option<T>)

  /** The last three are for the statement only: all items ever enqueued, all ever taken, and the takes
      without a token less the tokens spent on an empty queue. */
  datatype State<T> = State(
    queue: seq<T>, sem: nat, mutex: Option<nat>, places: seq<Place<T>>,
    pushed: seq<T>, popped: seq<T>, unpaid: int)

  datatype Move<T> =
    | StartPush(x: T) | StartPop(how: Wait) | Lock | Post | Enqueue | Unlock | Acquire | GiveUp | Interrupt
    | WaitFails | Take

  function At<T>(s: State<T>, i: nat, p: Place<T>): State<T>
    requires i < |s.places|
  {
    s.(places := s.places[i := p])
  }

  /** One step of thread i, if it can make it now. An unlimited wait that a signal interrupts goes on as if it
      had succeeded. */
  function Step<T>(s: State<T>, i: nat, move: Move<T>): Option<State<T>>
    requires i < |s.places|
  {
    match (s.places[i], move)
    case (Idle, StartPush(x)) => Some(At(s, i, PushLock(x)))
    case (PushLock(x), Lock) => if s.mutex.None? then Some(At(s, i, PushPost(x)).(mutex := Some(i))) else None
    case (PushPost(x), Post) => Some(At(s, i, PushEnqueue(x)).(sem := s.sem + 1))
    case (PushEnqueue(x), Enqueue) => Some(At(s, i, PushUnlock).(queue := s.queue + [x], pushed := s.pushed + [x]))
    case (PushUnlock, Unlock) => Some(At(s, i, Idle).(mutex := None))
    case (Idle, StartPop(how)) => if how == TimedAgain then None else Some(At(s, i, PopWait(how)))
    case (PopWait(_), Acquire) => if s.sem > 0 then Some(At(s, i, PopLock(true)).(sem := s.sem - 1)) else None
    case (PopWait(Try), GiveUp) => if s.sem == 0 then Some(At(s, i, Idle)) else None
    case (PopWait(Timed), GiveUp) => Some(At(s, i, Idle))
    case (PopWait(TimedAgain), GiveUp) => Some(At(s, i, Idle))
    case (PopWait(Timed), Interrupt) => Some(At(s, i, PopWait(TimedAgain)))
    case (PopWait(TimedAgain), Interrupt) => Some(At(s, i, Idle))
    case (PopWait(Forever), WaitFails) => Some(At(s, i, PopLock(false)))
    case (PopLock(token), Lock) => if s.mutex.None? then Some(At(s, i, PopTake(token)).(mutex := Some(i))) else None
    case (PopTake(token), Take) => Some(Taken(s, i, token))
    case (PopUnlock(_), Unlock) => Some(At(s, i, Idle).(mutex := None))
    case _ => None
  }

  function Taken<T>(s: State<T>, i: nat, token: bool): State<T>
    requires i < |s.places|
  {
    if s.queue == [] then At(s, i, PopUnlock(None)).(unpaid := if token then s.unpaid - 1 else s.unpaid)
    else At(s, i, PopUnlock(Some(s.queue[0]))).(
      queue := s.queue[1..], popped := s.popped + [s.queue[0]], unpaid := if token then s.unpaid else s.unpaid + 1)
  }

  // ----- the invariant -----

  predicate Critical<T>(p: Place<T>) {
    p.PushPost? || p.PushEnqueue? || p.PushUnlock? || p.PopTake? || p.PopUnlock?
  }

  predicate HoldsToken<T>(p: Place<T>) { p == PopLock(true) || p == PopTake(true) }

  function Tokens<T>(places: seq<Place<T>>, n: nat): nat
    requires n <= |places|
  {
    if n == 0 then 0 else Tokens(places, n - 1) + (if HoldsToken(places[n - 1]) then 1 else 0)
  }

  /** A pusher is between raising the semaphore and enqueueing. */
  function Promised<T>(s: State<T>): nat {
    if s.mutex.Some? && s.mutex.value < |s.places| && s.places[s.mutex.value].PushEnqueue? then 1 else 0
  }

  /** The mutex is held by exactly the thread inside. */
  ghost predicate Exclusive<T>(s: State<T>) {
    (s.mutex.Some? ==> s.mutex.value < |s.places| && Critical(s.places[s.mutex.value])) &&
    forall i :: 0 <= i < |s.places| && Critical(s.places[i]) ==> s.mutex == Some(i)
  }

  ghost predicate Inv<T>(s: State<T>) {
    Exclusive(s) && s.popped + s.queue == s.pushed &&
    s.sem + Tokens(s.places, |s.places|) == |s.queue| + Promised(s) + s.unpaid
  }

  lemma {:induction false} TokensMoved<T>(places: seq<Place<T>>, i: nat, p: Place<T>, n: nat)
    requires i < |places| && n <= |places|
    ensures Tokens(places[i := p], n) ==
            if i < n then Tokens(places,
                n) - (if HoldsToken(places[i]) then 1 else 0) + (if HoldsToken(p) then 1 else 0)
            else Tokens(places, n)
    decreases n
  {
    if n > 0 { TokensMoved(places, i, p, n - 1); }
  }

  lemma {:induction false} StepExclusive<T>(s: State<T>, i: nat, move: Move<T>)
    requires Exclusive(s) && i < |s.places| && Step(s, i, move).Some?
    ensures Exclusive(Step(s, i, move).value)
  {
  }

  lemma {:induction false} StepOrder<T>(s: State<T>, i: nat, move: Move<T>)
    requires s.popped + s.queue == s.pushed && i < |s.places| && Step(s, i, move).Some?
    ensures var s' := Step(s, i, move).value; s'.popped + s'.queue == s'.pushed
  {
    if move.Enqueue? { assert s.popped + (s.queue + [s.places[i].x]) == s.popped + s.queue + [s.places[i].x]; }
    if move.Take? && s.queue != [] { assert s.popped + [s.queue[0]] + s.queue[1..] == s.popped + s.queue; }
  }

  lemma {:induction false} StepCount<T>(s: State<T>, i: nat, move: Move<T>)
    requires Exclusive(s) && i < |s.places| && Step(s, i, move).Some?
    requires s.sem + Tokens(s.places, |s.places|) == |s.queue| + Promised(s) + s.unpaid
    ensures var s' := Step(s, i, move).value;
            s'.sem + Tokens(s'.places, |s'.places|) == |s'.queue| + Promised(s') + s'.unpaid
  {
    var p := Step(s, i, move).value.places[i];
    PlacesMoved(s, i, move, p);
    TokensMoved(s.places, i, p, |s.places|);
    PromisedMoved(s, i, move);
  }

  lemma {:induction false} PlacesMoved<T>(s: State<T>, i: nat, move: Move<T>, p: Place<T>)
    requires i < |s.places| && Step(s, i, move).Some? && p == Step(s, i, move).value.places[i]
    ensures Step(s, i, move).value.places == s.places[i := p]
    ensures HoldsToken(p) <==> move.Acquire? || (move.Lock? && s.places[i] == PopLock(true))
  {
  }

  lemma {:induction false} PromisedMoved<T>(s: State<T>, i: nat, move: Move<T>)
    requires Exclusive(s) && i < |s.places| && Step(s, i, move).Some?
    ensures Promised(Step(s, i, move).value) ==
            if move.Post? then Promised(s) + 1 else if move.Enqueue? then Promised(s) - 1 else Promised(s)
  {
  }

  /** No step of any thread breaks the count or the order. */
  lemma {:induction false} StepKeeps<T>(s: State<T>, i: nat, move: Move<T>)
    requires Inv(s) && i < |s.places| && Step(s, i, move).Some?
    ensures Inv(Step(s, i, move).value)
  {
    StepExclusive(s, i, move);
    StepOrder(s, i, move);
    StepCount(s, i, move);
  }

  // ----- runs -----

  datatype Event<T> = Event(thread: nat, move: Move<T>)

  function Start<T>(threads: nat): State<T> {
    State([], 0, None, seq(threads, _ => Idle), [], [], 0)
  }

  /** The state after the first n events, if each was possible when it came. */
  function Run<T>(threads: nat, events: seq<Event<T>>, n: nat): (r: Option<State<T>>)
    requires n <= |events|
    ensures r.Some? ==> |r.value.places| == threads
  {
    if n == 0 then Some(Start(threads)) else
    var before := Run(threads, events, n - 1);
    if before.None? || events[n - 1].thread >= threads then None
    else Step(before.value, events[n - 1].thread, events[n - 1].move)
  }

  lemma {:induction false} NoTokensAtStart<T>(places: seq<Place<T>>, n: nat)
    requires n <= |places| && forall i :: 0 <= i < |places| ==> places[i] == Idle
    ensures Tokens(places, n) == 0
    decreases n
  {
    if n > 0 { NoTokensAtStart(places, n - 1); }
  }

  /** Under every interleaving: the count, the exclusion and the order. */
  lemma {:induction false} RunKeeps<T>(threads: nat, events: seq<Event<T>>, n: nat)
    requires n <= |events| && Run(threads, events, n).Some?
    ensures Inv(Run(threads, events, n).value)
    decreases n
  {
    if n == 0 {
      NoTokensAtStart(Start<T>(threads).places, threads);
    } else {
      RunKeeps(threads, events, n - 1);
      StepKeeps(Run(threads, events, n - 1).value, events[n - 1].thread, events[n - 1].move);
    }
  }

  /** What has been taken is a prefix of what has been enqueued: first in, first out, nothing lost. */
  lemma {:induction false} TakenInOrder<T>(threads: nat, events: seq<Event<T>>, n: nat)
    requires n <= |events| && Run(threads, events, n).Some?
    ensures var s := Run(threads, events, n).value; s.popped <= s.pushed && |s.pushed| == |s.popped| + |s.queue|
  {
    RunKeeps(threads, events, n);
  }

  // ----- what callers give and get -----

  /** The argument of thread i's last push call. */
  function LastPush<T>(events: seq<Event<T>>, i: nat, n: nat): Option<T>
    requires n <= |events|
  {
    if n == 0 then None
    else if events[n - 1].thread == i && events[n - 1].move.StartPush? then Some(events[n - 1].move.x)
    else LastPush(events, i, n - 1)
  }

  /** The arguments of the push calls, in the order in which they enqueue. */
  function Given<T>(events: seq<Event<T>>, n: nat): seq<T>
    requires n <= |events|
  {
    if n == 0 then [] else
    var x := LastPush(events, events[n - 1].thread, n - 1);
    Given(events, n - 1) + (if events[n - 1].move.Enqueue? && x.Some? then [x.value] else [])
  }

  function Value<T>(x: Option<T>): seq<T> { if x.Some? then [x.value] else [] }

  /** What the pop calls that came as far as the queue returned, in the order in which they left. */
  function Gotten<T>(threads: nat, events: seq<Event<T>>, n: nat): seq<T>
    requires n <= |events| && Run(threads, events, n).Some?
  {
    if n == 0 then [] else
    var p := Run(threads, events, n - 1).value.places[events[n - 1].thread];
    Gotten(threads, events, n - 1) + (if events[n - 1].move.Unlock? && p.PopUnlock? then Value(p.got) else [])
  }

  /** What a popper that is about to leave will return. */
  function Pending<T>(s: State<T>): seq<T> {
    if s.mutex.Some? && s.mutex.value < |s.places| && s.places[s.mutex.value].PopUnlock?
    then Value(s.places[s.mutex.value].got) else []
  }

  /** A pusher carries the argument of its call. */
  predicate Carries<T(==)>(p: Place<T>, x: Option<T>) {
    p.PushLock? || p.PushPost? || p.PushEnqueue? ==> x == Some(p.x)
  }

  lemma {:induction false} PushersCarry<T>(threads: nat, events: seq<Event<T>>, n: nat, i: nat)
    requires n <= |events| && Run(threads, events, n).Some? && i < threads
    ensures Carries(Run(threads, events, n).value.places[i], LastPush(events, i, n))
    decreases n
  {
    if n > 0 {
      PushersCarry(threads, events, n - 1, i);
      StepCarries(Run(threads, events, n - 1).value, events[n - 1].thread, events[n - 1].move, i,
                  LastPush(events, i, n - 1));
    }
  }

  lemma {:induction false} StepCarries<T>(s: State<T>, j: nat, move: Move<T>, i: nat, x: Option<T>)
    requires i < |s.places| && j < |s.places| && Step(s, j, move).Some? && Carries(s.places[i], x)
    ensures Carries(Step(s, j, move).value.places[i], if j == i && move.StartPush? then Some(move.x) else x)
  {
  }

  lemma {:induction false} StepPushes<T>(s: State<T>, i: nat, move: Move<T>, x: Option<T>)
    requires i < |s.places| && Step(s, i, move).Some? && Carries(s.places[i], x)
    ensures Step(s, i, move).value.pushed == s.pushed + (if move.Enqueue? && x.Some? then [x.value] else [])
  {
  }

  lemma {:induction false} GivenIsPushed<T>(threads: nat, events: seq<Event<T>>, n: nat)
    requires n <= |events| && Run(threads, events, n).Some?
    ensures Run(threads, events, n).value.pushed == Given(events, n)
    decreases n
  {
    if n > 0 {
      GivenIsPushed(threads, events, n - 1);
      PushersCarry(threads, events, n - 1, events[n - 1].thread);
      StepPushes(Run(threads, events, n - 1).value, events[n - 1].thread, events[n - 1].move,
                 LastPush(events, events[n - 1].thread, n - 1));
    }
  }

  lemma {:induction false} PendingMoved<T>(s: State<T>, i: nat, move: Move<T>)
    requires Exclusive(s) && i < |s.places| && Step(s, i, move).Some?
    ensures var s' := Step(s, i, move).value;
            var left := if move.Unlock? && s.places[i].PopUnlock? then Value(s.places[i].got) else [];
            left + Pending(s') == Pending(s) + s'.popped[|s.popped|..] && s.popped <= s'.popped
  {
    assert Critical(s.places[i]) ==> s.mutex == Some(i);
    StepExclusive(s, i, move);
  }

  lemma {:induction false} GottenIsPopped<T>(threads: nat, events: seq<Event<T>>, n: nat)
    requires n <= |events| && Run(threads, events, n).Some?
    ensures var s := Run(threads, events, n).value; Gotten(threads, events, n) + Pending(s) == s.popped
    decreases n
  {
    if n > 0 {
      var s, i, move := Run(threads, events, n - 1).value, events[n - 1].thread, events[n - 1].move;
      GottenIsPopped(threads, events, n - 1);
      RunKeeps(threads, events, n - 1);
      PendingMoved(s, i, move);
      Rejoined(Gotten(threads, events, n - 1), Pending(s),
               if move.Unlock? && s.places[i].PopUnlock? then Value(s.places[i].got) else [],
               Pending(Step(s, i, move).value), s.popped, Step(s, i, move).value.popped);
    }
  }

  lemma {:induction false} Rejoined<T>(gotten: seq<T>, pending: seq<T>, left: seq<T>, pending': seq<T>, popped: seq<T>,
                                       popped': seq<T>)
    requires gotten + pending == popped <= popped' && left + pending' == pending + popped'[|popped|..]
    ensures gotten + left + pending' == popped'
  {
    assert gotten + left + pending' == gotten + (left + pending');
    assert gotten + (pending + popped'[|popped|..]) == gotten + pending + popped'[|popped|..];
  }

  /** Under every interleaving: what the pop calls return, in the order in which they leave, then what a popper about
      to leave has, then what is queued, is what the push calls were given, in the order in which they enqueued. */
  lemma {:induction false} DeliveredInOrder<T>(threads: nat, events: seq<Event<T>>, n: nat)
    requires n <= |events| && Run(threads, events, n).Some?
    ensures var s := Run(threads, events, n).value;
            Gotten(threads, events, n) + Pending(s) + s.queue == Given(events, n)
  {
    RunKeeps(threads, events, n);
    GivenIsPushed(threads, events, n);
    GottenIsPopped(threads, events, n);
  }

  /** A call that came as far as the queue returns nothing exactly when it found the queue empty. */
  lemma {:induction false} NothingExactly<T>(s: State<T>, i: nat)
    requires i < |s.places| && s.places[i].PopTake?
    ensures var s' := Step(s, i, Take); s'.Some? && (s'.value.places[i] == PopUnlock(None) <==> s.queue == [])
  {
  }

  /** A call that does not want to wait gives up exactly when there is no token to be had. */
  lemma {:induction false} TryGivesUpExactly<T>(s: State<T>, i: nat)
    requires i < |s.places| && s.places[i] == PopWait(Try)
    ensures Step(s, i, GiveUp).Some? <==> s.sem == 0
    ensures Step(s, i, Acquire).Some? <==> s.sem > 0
  {
  }

  // ----- the empty queue -----

  predicate Undisturbed<T>(events: seq<Event<T>>) {
    forall k :: 0 <= k < |events| ==> events[k].move != WaitFails
  }

  ghost predicate Paid<T>(s: State<T>) {
    s.unpaid == 0 && forall i :: 0 <= i < |s.places| ==> s.places[i] != PopLock(false) && s.places[i] != PopTake(false)
  }

  lemma {:induction false} TokenCounted<T>(places: seq<Place<T>>, i: nat, n: nat)
    requires i < n <= |places| && HoldsToken(places[i])
    ensures Tokens(places, n) >= 1
    decreases n
  {
    if i < n - 1 { TokenCounted(places, i, n - 1); }
  }

  /** A popper with a token finds the queue empty only when some item was taken without one. */
  lemma {:induction false} TokenFindsItem<T>(s: State<T>, i: nat)
    requires Inv(s) && i < |s.places| && s.places[i] == PopTake(true) && s.queue == []
    ensures s.unpaid >= 1
  {
    TokenCounted(s.places, i, |s.places|);
    assert Critical(s.places[i]);
  }

  lemma {:induction false} StepPaid<T>(s: State<T>, i: nat, move: Move<T>)
    requires Inv(s) && Paid(s) && i < |s.places| && move != WaitFails && Step(s, i, move).Some?
    ensures Paid(Step(s, i, move).value)
  {
    if move.Take? && s.queue == [] && s.places[i] == PopTake(true) { TokenFindsItem(s, i); }
  }

  lemma {:induction false} RunPaid<T>(threads: nat, events: seq<Event<T>>, n: nat)
    requires n <= |events| && Undisturbed(events) && Run(threads, events, n).Some?
    ensures Paid(Run(threads, events, n).value)
    decreases n
  {
    if n > 0 {
      RunPaid(threads, events, n - 1);
      RunKeeps(threads, events, n - 1);
      StepPaid(Run(threads, events, n - 1).value, events[n - 1].thread, events[n - 1].move);
    }
  }

  /** As long as no unlimited wait is interrupted, a popper about to take finds an item, whatever the others
      do, and semaphore and poppers with tokens together count the items. */
  lemma {:induction false} NeverEmpty<T>(threads: nat, events: seq<Event<T>>, n: nat, i: nat)
    requires n <= |events| && Undisturbed(events) && Run(threads, events, n).Some? && i < threads
    ensures var s := Run(threads, events, n).value;
            s.sem + Tokens(s.places, threads) == |s.queue| + Promised(s) && (s.places[i].PopTake? ==> s.queue != [])
  {
    RunKeeps(threads, events, n);
    RunPaid(threads, events, n);
    var s := Run(threads, events, n).value;
    if s.places[i].PopTake? && s.queue == [] { TokenFindsItem(s, i); }
  }

  // ----- an interrupted wait -----

  function Then<T>(r: Option<State<T>>, i: nat, move: Move<T>): Option<State<T>> {
    if r.None? || i >= |r.value.places| then None else Step(r.value, i, move)
  }

  /** Thread i takes the only item without a token after its wait was interrupted. */
  function Disturbed<T>(s: State<T>, i: nat): Option<State<T>> {
    Then(Then(Then(Then(Then(Some(s), i, StartPop(Forever)), i, WaitFails), i, Lock), i, Take), i, Unlock)
  }

  lemma {:induction false} DisturbedTakes<T>(s: State<T>, i: nat)
    requires i < |s.places| && s.mutex.None? && |s.queue| == 1 && s.places[i] == Idle
    ensures var r := Disturbed(s, i);
            r.Some? && r.value.queue == [] && r.value.sem == s.sem && r.value.mutex.None? && r.value.places == s.places
  {
    var s1 := At(s, i, PopWait(Forever));
    assert Then(Some(s), i, StartPop(Forever)) == Some(s1);
    var s2 := At(s1, i, PopLock(false));
    assert Then(Some(s1), i, WaitFails) == Some(s2);
    var s3 := At(s2, i, PopTake(false)).(mutex := Some(i));
    assert Then(Some(s2), i, Lock) == Some(s3);
    var s4 := Taken(s3, i, false);
    assert Then(Some(s3), i, Take) == Some(s4);
    assert s4.places[i].PopUnlock?;
    assert Then(Some(s4), i, Unlock) == Some(At(s4, i, Idle).(mutex := None));
    assert At(s4, i, Idle).places == s.places;
  }

  /** After it, another popper gets the token that is left over and stands before an empty queue. */
  lemma {:induction false} InterruptedWaitEmpties<T>(s: State<T>, i: nat, j: nat)
    requires i < |s.places| && j < |s.places| && s.places[i] == Idle && s.places[j] == Idle
    requires s.mutex.None? && |s.queue| == 1 && s.sem == 1
    ensures var r := Then(Then(Then(Disturbed(s, i), j, StartPop(Try)), j, Acquire), j, Lock);
            r.Some? && r.value.places[j] == PopTake(true) && r.value.queue == []
  {
    DisturbedTakes(s, i);
    TokenLeft(Disturbed(s, i).value, j);
  }

  lemma {:induction false} TokenLeft<T>(s: State<T>, j: nat)
    requires j < |s.places| && s.places[j] == Idle && s.mutex.None? && s.sem == 1 && s.queue == []
    ensures var r := Then(Then(Then(Some(s), j, StartPop(Try)), j, Acquire), j, Lock);
            r.Some? && r.value.places[j] == PopTake(true) && r.value.queue == []
  {
    var s1 := At(s, j, PopWait(Try));
    assert Then(Some(s), j, StartPop(Try)) == Some(s1);
    var s2 := At(s1, j, PopLock(true)).(sem := 0);
    assert Then(Some(s1), j, Acquire) == Some(s2);
    assert Then(Some(s2), j, Lock) == Some(At(s2, j, PopTake(true)).(mutex := Some(j)));
  }

  /** Thread 0 pushes one message. */
  function OnePush<T>(threads: nat, x: T): Option<State<T>> {
    Then(Then(Then(Then(Then(Some(Start(threads)), 0, StartPush(x)), 0, Lock), 0, Post), 0, Enqueue), 0, Unlock)
  }

  lemma {:induction false} OnePushed<T>(threads: nat, x: T)
    requires threads >= 1
    ensures var r := OnePush(threads, x);
            r.Some? && r.value.queue == [x] && r.value.sem == 1 && r.value.mutex.None? &&
            r.value.places == Start<T>(threads).places
  {
    var s := Start<T>(threads);
    var s1 := At(s, 0, PushLock(x));
    assert Then(Some(s), 0, StartPush(x)) == Some(s1);
    var s2 := At(s1, 0, PushPost(x)).(mutex := Some(0));
    assert Then(Some(s1), 0, Lock) == Some(s2);
    var s3 := At(s2, 0, PushEnqueue(x)).(sem := 1);
    assert Then(Some(s2), 0, Post) == Some(s3);
    var s4 := At(s3, 0, PushUnlock).(queue := [] + [x], pushed := [] + [x]);
    assert Then(Some(s3), 0, Enqueue) == Some(s4);
    assert Then(Some(s4), 0, Unlock) == Some(At(s4, 0, Idle).(mutex := None));
    assert At(s4, 0, Idle).places == s.places;
  }

  /** From the start, with two threads: a push, an interrupted wait, and a popper before an empty queue. */
  lemma {:induction false} TwoThreadsDisturbed<T>(threads: nat, x: T)
    requires threads >= 2
    ensures var s := OnePush(threads, x);
            s.Some? && var r := Then(Then(Then(Disturbed(s.value, 0), 1, StartPop(Try)), 1, Acquire), 1, Lock);
            r.Some? && r.value.places[1] == PopTake(true) && r.value.queue == []
  {
    OnePushed(threads, x);
    InterruptedWaitEmpties(OnePush(threads, x).value, 0, 1);
  }

  /** Some run, with or without interrupted unlimited waits, brings a popper before an empty queue. */
  ghost predicate CanFindNothing<T(!new)>(threads: nat, interrupted: bool) {
    exists events: seq<Event<T>>, i: nat ::
      FindsNothing(threads, events, i) && (interrupted || Undisturbed(events))
  }

  predicate FindsNothing<T(==)>(threads: nat, events: seq<Event<T>>, i: nat) {
    var r := Run(threads, events, |events|);
    r.Some? && i < threads && r.value.places[i].PopTake? && r.value.queue == []
  }

  lemma {:induction false} OneThreadFindsNothing<T>(threads: nat, events: seq<Event<T>>)
    requires threads >= 1
    requires events == [Event(0, StartPop(Forever)), Event(0, WaitFails), Event(0, Lock)]
    ensures FindsNothing(threads, events, 0)
  {
    var s := Start<T>(threads);
    var s1 := At(s, 0, PopWait(Forever));
    var s2 := At(s1, 0, PopLock(false));
    assert Run(threads, events, 0) == Some(s);
    assert Run(threads, events, 1) == Some(s1);
    assert Run(threads, events, 2) == Some(s2);
  }

  /** With any number of threads this can happen exactly if unlimited waits are interrupted. */
  lemma {:induction false} EmptyExactlyWhenInterrupted<T(!new)>(threads: nat, interrupted: bool)
    requires threads >= 1
    ensures CanFindNothing<T>(threads, interrupted) <==> interrupted
  {
    if interrupted {
      var events: seq<Event<T>> := [Event(0, StartPop(Forever)), Event(0, WaitFails), Event(0, Lock)];
      OneThreadFindsNothing(threads, events);
      assert FindsNothing(threads, events, 0 as nat);
    } else if CanFindNothing<T>(threads, interrupted) {
      var events: seq<Event<T>>, i: nat :| FindsNothing(threads, events, i) && Undisturbed(events);
      NeverEmpty(threads, events, |events|, i);
    }
  }
}
