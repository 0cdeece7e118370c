/** The seamless reset end to end: a generator that has just been reset, a lossy path that also
    delivers late copies, and a seamless vector recovery (seq_gen.c into seq_recov.c).
    Packets are named by their absolute number: output k of the generator is start + k, so the
    initial space is everything below the number space and regular 0 is number 65536. */
module SeamlessReset {
  import opened SeqRecovery
  import opened SeqGenerator
  import VectorRuns

  function WordOf(start: nat, n: nat): (word: nat)
    requires start <= n
  {
    WordAt(GenConfig(true, true, start), n - start)
  }

  /** What may arrive once `seen` has: a new packet, at most H beyond the newest (so up to H - 1
      packets in a row may be lost), or a copy of one received less than H behind it. */
  predicate Schedule(H: nat, start: nat, seen: set<int>, newest: int, arrivals: seq<nat>)
    decreases |arrivals|
  {
    arrivals == [] ||
    var n := arrivals[0];
    start <= n && (newest < n <= newest + H || (n in seen && newest - n < H)) &&
    Schedule(H, start, seen + {n}, if n > newest then n else newest, arrivals[1..])
  }

  /** Each packet that arrives is passed exactly once: at its first arrival. */
  predicate ExactlyOnce(cfg: Config, s: State, start: nat, seen: set<int>, arrivals: seq<nat>)
    requires ValidState(cfg, s)
    decreases |arrivals|
  {
    arrivals == [] ||
    var n := arrivals[0];
    start <= n &&
    var (t, pass) := SeamlessArrive(cfg, s, WordOf(start, n));
    (pass <==> n !in seen) && ExactlyOnce(cfg, t, start, seen + {n}, arrivals[1..])
  }

  /** A window that a new number moves to: it takes any packet, or the number is ahead of it and within H, or the
      packet is flagged and outside the ignore range. */
  predicate Taken(cfg: Config, w: Window, num: nat, flagged: bool) {
    w.takeAny || 1 <= CalcDelta(num, w.recvSeq) <= cfg.historyLength || (flagged && ResetApplies(cfg, num, w.recvSeq))
  }

  /** The bit of the initial number n in a window that has already wrapped around. */
  predicate Bit(w: Window, n: int)
    requires 0 <= w.recvSeq + SEQ_SPACE - n < |w.history|
  {
    w.history[w.recvSeq + SEQ_SPACE - n]
  }

  /** The initial window stands beyond the whole initial space that is left, less than H beyond the first packet,
      and none of that space is marked. Only a first packet within the last H numbers can meet such a window. */
  predicate Beyond(w: Window, first: nat) {
    w.recvSeq + SEQ_SPACE - first < |w.history| && forall n :: first <= n < SEQ_SPACE ==> !Bit(w, n)
  }

  predicate RegularTaken(cfg: Config, w: Window, start: nat, j: nat)
    requires start < SEQ_SPACE
  {
    Taken(cfg, w, j, Flagged(start, SEQ_SPACE + j))
  }

  /** Whichever of the first H regular numbers comes first, the window moves to it. */
  predicate RegularReady(cfg: Config, w: Window, start: nat)
    requires start < SEQ_SPACE
  {
    forall j :: 0 <= j < cfg.historyLength ==> RegularTaken(cfg, w, start, j)
  }

  /** Ready for packet `first` to be the first that arrives. An initial packet less than 3H and at least H before
      the end prepares the regular window; when the first is later than that, none does. */
  predicate ReadyFor(cfg: Config, s: State, start: nat, first: nat)
    requires start <= first && start < SEQ_SPACE
  {
    if first >= SEQ_SPACE then Taken(cfg, s.reg, first % SEQ_SPACE, Flagged(start, first))
    else
      (Taken(cfg, s.init, first, Flagged(start, first)) || Beyond(s.init, first)) &&
      (first < SEQ_SPACE - cfg.historyLength || RegularReady(cfg, s.reg, start))
  }

  // ----- one packet of the generator -----

  predicate Setting(cfg: Config, start: nat) {
    cfg.useResetFlag && cfg.useInitFlag && 1 <= cfg.historyLength < SEQ_SPACE / 2 && start < SEQ_SPACE
  }

  lemma {:induction false} RegularNumber(n: int)
    requires n >= SEQ_SPACE
    ensures (n - SEQ_SPACE - n % SEQ_SPACE) % SEQ_SPACE == 0 && (n < 2 * SEQ_SPACE ==> n % SEQ_SPACE == n - SEQ_SPACE)
  {
  }

  /** Whether packet n carries the reset flag. */
  predicate Flagged(start: nat, n: nat)
    requires start <= n
  {
    n - start < if start < SEQ_SPACE - 3 then 3 else SEQ_SPACE - start + 3
  }

  function MaybeReset(cfg: Config, w: Window, num: nat, flagged: bool): Window {
    if flagged && ResetApplies(cfg, num, w.recvSeq) then w.(takeAny := true) else w
  }

  lemma {:induction false} InitArrival(cfg: Config, s: State, start: nat, n: nat)
    requires Setting(cfg, start) && ValidState(cfg, s) && start <= n < SEQ_SPACE
    ensures var (t, pass) := SeamlessArrive(cfg, s, WordOf(start, n));
            var v := MaybeReset(cfg, s.init, n, Flagged(start, n));
            pass == Accepts(v, n) && t.init == NextWindow(v, n) && ValidState(cfg, t) &&
            t.reg == if SEQ_SPACE - 3 * cfg.historyLength <= n < SEQ_SPACE - cfg.historyLength
                     then s.reg.(takeAny := true) else s.reg
  {
  }

  lemma {:induction false} RegularArrival(cfg: Config, s: State, start: nat, n: nat)
    requires Setting(cfg, start) && ValidState(cfg, s) && SEQ_SPACE <= n
    ensures var (t, pass) := SeamlessArrive(cfg, s, WordOf(start, n));
            var v := MaybeReset(cfg, s.reg, n % SEQ_SPACE, Flagged(start, n));
            pass == Accepts(v, n % SEQ_SPACE) && t.reg == NextWindow(v, n % SEQ_SPACE) && ValidState(cfg, t) &&
            t.init == s.init
  {
  }

  /** Inside the window, or with a window that takes any packet, the reset flag changes nothing. */
  lemma {:induction false} RegularStep(cfg: Config, s: State, start: nat, n: nat)
    requires Setting(cfg, start) && ValidState(cfg, s) && SEQ_SPACE <= n
    requires s.reg.takeAny || -|s.reg.history| < CalcDelta(n % SEQ_SPACE, s.reg.recvSeq) <= |s.reg.history|
    ensures var (t, pass) := SeamlessArrive(cfg, s, WordOf(start, n));
            pass == Accepts(s.reg, n % SEQ_SPACE) && t.reg == NextWindow(s.reg, n % SEQ_SPACE) && ValidState(cfg, t) &&
            t.init == s.init
  {
    RegularArrival(cfg, s, start, n);
  }

  // ----- one window -----

  /** The window stands at absolute number `base` and shows every number of `marks` in its range. */
  ghost predicate Shows(w: Window, base: int, marks: set<int>) {
    !w.takeAny && |w.history| >= 1 && (base - w.recvSeq) % SEQ_SPACE == 0 && base in marks &&
    forall m :: m in marks ==> m <= base && (base - m < |w.history| ==> w.history[base - m])
  }

  lemma {:induction false} ShowsFirst(w: Window, n: nat, num: nat)
    requires w.takeAny && |w.history| >= 1 && num == n % SEQ_SPACE
    ensures Accepts(w, num) && Shows(NextWindow(w, num), n, {n})
  {
  }

  lemma {:induction false} ShowsNew(w: Window, base: int, marks: set<int>, n: nat, num: nat)
    requires Shows(w, base, marks) && |w.history| < SEQ_SPACE / 2
    requires base < n <= base + |w.history| && num == n % SEQ_SPACE
    ensures CalcDelta(num, w.recvSeq) == n - base
    ensures Accepts(w, num) && Shows(NextWindow(w, num), n, marks + {n})
  {
    CalcDeltaIsDistance(n, base, num, w.recvSeq);
    var v := NextWindow(w, num);
    forall m | m in marks + {n}
      ensures m <= n && (n - m < |v.history| ==> v.history[n - m])
    {
      if n - m < |v.history| { AdvancedAt(w.history, n - base, n - m); }
    }
  }

  lemma {:induction false} ShowsCopy(w: Window, base: int, marks: set<int>, n: nat, num: nat)
    requires Shows(w, base, marks) && |w.history| < SEQ_SPACE / 2
    requires n in marks && base - n < |w.history| && num == n % SEQ_SPACE
    ensures CalcDelta(num, w.recvSeq) == n - base
    ensures !Accepts(w, num) && NextWindow(w, num) == w
  {
    CalcDeltaIsDistance(n, base, num, w.recvSeq);
    assert w.history[base - n := true] == w.history;
  }

  // ----- both windows -----

  ghost function InitPart(seen: set<int>): set<int> { set n | n in seen && n < SEQ_SPACE }
  ghost function RegularPart(seen: set<int>): set<int> { set n | n in seen && n >= SEQ_SPACE }

  /** The initial window after the packets `seen`: it follows the newest, or it stood beyond them from the start. */
  ghost predicate InitFollows(w: Window, first: nat, seen: set<int>, newest: int) {
    (Shows(w, w.recvSeq, InitPart(seen)) && (newest < SEQ_SPACE ==> w.recvSeq == newest)) ||
    (!w.takeAny && w.recvSeq + SEQ_SPACE - first < |w.history| &&
     forall n :: first <= n < SEQ_SPACE ==> (Bit(w, n) <==> n in seen))
  }

  /** The recovery after the packets `seen`, from `first` to `newest`. */
  ghost predicate Follows(cfg: Config, s: State, start: nat, first: nat, seen: set<int>, newest: int)
    requires start < SEQ_SPACE
  {
    ValidState(cfg, s) && newest in seen && (forall n :: n in seen ==> first <= n <= newest) &&
    (first < SEQ_SPACE ==> InitFollows(s.init, first, seen, newest)) &&
    if newest >= SEQ_SPACE then Shows(s.reg, newest, RegularPart(seen))
    else if first < SEQ_SPACE - cfg.historyLength then newest >= SEQ_SPACE - 3 * cfg.historyLength ==> s.reg.takeAny
    else RegularReady(cfg, s.reg, start)
  }

  // ----- the initial window -----

  lemma {:induction false} NewInInit(w: Window, first: nat, seen: set<int>, newest: int, n: nat)
    requires 1 <= |w.history| < SEQ_SPACE / 2 && InitFollows(w, first, seen, newest)
    requires (forall m :: m in seen ==> m <= newest) && first <= n && newest < n <= newest + |w.history| &&
             n < SEQ_SPACE
    ensures Accepts(w, n) && InitFollows(NextWindow(w, n), first, seen + {n}, n)
    ensures -|w.history| < CalcDelta(n, w.recvSeq) <= |w.history|
  {
    assert InitPart(seen + {n}) == InitPart(seen) + {n};
    if Shows(w, w.recvSeq, InitPart(seen)) && w.recvSeq == newest {
      ShowsNew(w, newest, InitPart(seen), n, n);
    } else {
      CalcDeltaIsDistance(n, w.recvSeq + SEQ_SPACE, n, w.recvSeq);
      assert !Bit(w, n);
    }
  }

  lemma {:induction false} CopyInInit(w: Window, first: nat, seen: set<int>, newest: int, n: nat)
    requires 1 <= |w.history| < SEQ_SPACE / 2 && InitFollows(w, first, seen, newest)
    requires n in seen && first <= n < SEQ_SPACE && newest - n < |w.history| && forall m :: m in seen ==> m <= newest
    ensures !Accepts(w, n) && NextWindow(w, n) == w
    ensures -|w.history| < CalcDelta(n, w.recvSeq) <= |w.history|
  {
    if Shows(w, w.recvSeq, InitPart(seen)) && (newest < SEQ_SPACE ==> w.recvSeq == newest) {
      assert w.recvSeq in InitPart(seen) && n in InitPart(seen);
      ShowsCopy(w, w.recvSeq, InitPart(seen), n, n);
    } else {
      CalcDeltaIsDistance(n, w.recvSeq + SEQ_SPACE, n, w.recvSeq);
      assert Bit(w, n);
      assert w.history[w.recvSeq + SEQ_SPACE - n := true] == w.history;
    }
  }

  lemma {:induction false} FirstTaken(cfg: Config, w: Window, n: nat, num: nat, flagged: bool)
    requires 1 <= |w.history| == cfg.historyLength < SEQ_SPACE / 2 && num == n % SEQ_SPACE
    requires Taken(cfg, w, num, flagged)
    ensures var v := MaybeReset(cfg, w, num, flagged); Accepts(v, num) && Shows(NextWindow(v, num), n, {n})
  {
    var v := MaybeReset(cfg, w, num, flagged);
    if v.takeAny { ShowsFirst(v, n, num); } else { AdvancedAt(w.history, CalcDelta(num, w.recvSeq), 0); }
  }

  lemma {:induction false} FirstBehind(w: Window, first: nat)
    requires 1 <= |w.history| < SEQ_SPACE / 2 && first < SEQ_SPACE && !w.takeAny && Beyond(w, first)
    ensures Accepts(w, first) && InitFollows(NextWindow(w, first), first, {first}, first)
    ensures -|w.history| < CalcDelta(first, w.recvSeq) <= 0
  {
    CalcDeltaIsDistance(first, w.recvSeq + SEQ_SPACE, first, w.recvSeq);
    assert !Bit(w, first);
    var v := NextWindow(w, first);
    forall n | first <= n < SEQ_SPACE
      ensures Bit(v, n) <==> n in {first as int}
    {
      assert !Bit(w, n);
    }
  }

  // ----- one arrival -----

  lemma {:induction false} NewInit(cfg: Config, s: State, start: nat, first: nat, seen: set<int>, newest: int, n: nat)
    requires Setting(cfg, start) && start <= first && Follows(cfg, s, start, first, seen, newest)
    requires newest < n <= newest + cfg.historyLength && n < SEQ_SPACE
    ensures var (t, pass) := SeamlessArrive(cfg, s, WordOf(start, n));
            pass && Follows(cfg, t, start, first, seen + {n}, n)
  {
    NewInInit(s.init, first, seen, newest, n);
    InitArrival(cfg, s, start, n);
  }

  lemma {:induction false} FirstRegular(cfg: Config, s: State, start: nat, first: nat, seen: set<int>, newest: int,
                                        n: nat)
    requires Setting(cfg, start) && start <= first && Follows(cfg, s, start, first, seen, newest)
    requires newest < SEQ_SPACE <= n <= newest + cfg.historyLength
    ensures var (t, pass) := SeamlessArrive(cfg, s, WordOf(start, n));
            pass && Follows(cfg, t, start, first, seen + {n}, n)
  {
    assert InitPart(seen + {n}) == InitPart(seen);
    assert RegularPart(seen + {n}) == {n};
    RegularNumber(n);
    assert first >= SEQ_SPACE - cfg.historyLength ==> RegularTaken(cfg, s.reg, start, n - SEQ_SPACE);
    FirstTaken(cfg, s.reg, n, n % SEQ_SPACE, Flagged(start, n));
    RegularArrival(cfg, s, start, n);
  }

  lemma {:induction false} NewRegular(cfg: Config, s: State, start: nat, first: nat, seen: set<int>, newest: int,
                                      n: nat)
    requires Setting(cfg, start) && start <= first && Follows(cfg, s, start, first, seen, newest)
    requires SEQ_SPACE <= newest < n <= newest + cfg.historyLength
    ensures var (t, pass) := SeamlessArrive(cfg, s, WordOf(start, n));
            pass && Follows(cfg, t, start, first, seen + {n}, n)
  {
    ShowsNew(s.reg, newest, RegularPart(seen), n, n % SEQ_SPACE);
    assert InitPart(seen + {n}) == InitPart(seen);
    assert RegularPart(seen + {n}) == RegularPart(seen) + {n};
    RegularStep(cfg, s, start, n);
  }

  lemma {:induction false} CopyInit(cfg: Config, s: State, start: nat, first: nat, seen: set<int>, newest: int, n: nat)
    requires Setting(cfg, start) && start <= first && Follows(cfg, s, start, first, seen, newest)
    requires n in seen && newest - n < cfg.historyLength && n < SEQ_SPACE
    ensures var (t, pass) := SeamlessArrive(cfg, s, WordOf(start, n));
            !pass && Follows(cfg, t, start, first, seen, newest)
  {
    CopyInInit(s.init, first, seen, newest, n);
    InitArrival(cfg, s, start, n);
  }

  lemma {:induction false} CopyRegular(cfg: Config, s: State, start: nat, first: nat, seen: set<int>, newest: int,
                                       n: nat)
    requires Setting(cfg, start) && start <= first && Follows(cfg, s, start, first, seen, newest)
    requires n in seen && newest - n < cfg.historyLength && SEQ_SPACE <= n
    ensures var (t, pass) := SeamlessArrive(cfg, s, WordOf(start, n));
            !pass && Follows(cfg, t, start, first, seen, newest)
  {
    ShowsCopy(s.reg, newest, RegularPart(seen), n, n % SEQ_SPACE);
    RegularStep(cfg, s, start, n);
  }

  lemma {:induction false} FirstInit(cfg: Config, s: State, start: nat, first: nat)
    requires Setting(cfg, start) && ValidState(cfg, s) && start <= first < SEQ_SPACE && ReadyFor(cfg, s, start, first)
    ensures var (t, pass) := SeamlessArrive(cfg, s, WordOf(start, first));
            pass && Follows(cfg, t, start, first, {first}, first)
  {
    InitArrival(cfg, s, start, first);
    assert InitPart({first}) == {first};
    if Taken(cfg, s.init, first, Flagged(start, first)) {
      FirstTaken(cfg, s.init, first, first, Flagged(start, first));
    } else {
      FirstBehind(s.init, first);
    }
  }

  lemma {:induction false} First(cfg: Config, s: State, start: nat, first: nat)
    requires Setting(cfg, start) && ValidState(cfg, s) && start <= first && ReadyFor(cfg, s, start, first)
    ensures var (t, pass) := SeamlessArrive(cfg, s, WordOf(start, first));
            pass && Follows(cfg, t, start, first, {first}, first)
  {
    if first < SEQ_SPACE {
      FirstInit(cfg, s, start, first);
    } else {
      FirstTaken(cfg, s.reg, first, first % SEQ_SPACE, Flagged(start, first));
      RegularArrival(cfg, s, start, first);
      assert RegularPart({first}) == {first};
    }
  }

  lemma {:induction false} NextArrival(cfg: Config, s: State, start: nat, first: nat, seen: set<int>, newest: int,
                                       n: nat)
    requires Setting(cfg, start) && start <= first && start <= n && Follows(cfg, s, start, first, seen, newest)
    requires newest < n <= newest + cfg.historyLength || (n in seen && newest - n < cfg.historyLength)
    ensures var (t, pass) := SeamlessArrive(cfg, s, WordOf(start, n));
            (pass <==> n !in seen) && Follows(cfg, t, start, first, seen + {n}, if n > newest then n else newest)
  {
    if n > newest {
      if n < SEQ_SPACE { NewInit(cfg, s, start, first, seen, newest, n); }
      else if newest < SEQ_SPACE { FirstRegular(cfg, s, start, first, seen, newest, n); }
      else { NewRegular(cfg, s, start, first, seen, newest, n); }
    } else {
      assert seen + {n} == seen;
      if n < SEQ_SPACE { CopyInit(cfg, s, start, first, seen, newest, n); }
      else { CopyRegular(cfg, s, start, first, seen, newest, n); }
    }
  }

  lemma {:induction false} SeamlessFollows(cfg: Config, s: State, start: nat, first: nat, seen: set<int>, newest: int,
                                           arrivals: seq<nat>)
    requires Setting(cfg, start) && start <= first && Follows(cfg, s, start, first, seen, newest)
    requires Schedule(cfg.historyLength, start, seen, newest, arrivals)
    ensures ExactlyOnce(cfg, s, start, seen, arrivals)
    decreases |arrivals|
  {
    if arrivals != [] {
      var n := arrivals[0];
      NextArrival(cfg, s, start, first, seen, newest, n);
      SeamlessFollows(cfg, SeamlessArrive(cfg, s, WordOf(start, n)).0, start, first, seen + {n},
                      if n > newest then n else newest, arrivals[1..]);
    }
  }

  /** Every schedule that begins with packet `first`, from a recovery that is ready for it: each packet is passed
      exactly once, across the switch from the initial to the regular numbers and every later wrap-around. */
  lemma {:induction false} SeamlessRun(cfg: Config, s: State, start: nat, first: nat, arrivals: seq<nat>)
    requires Setting(cfg, start) && ValidState(cfg, s) && start <= first && ReadyFor(cfg, s, start, first)
    requires Schedule(cfg.historyLength, start, {first}, first, arrivals)
    ensures ExactlyOnce(cfg, s, start, {}, [first] + arrivals)
  {
    First(cfg, s, start, first);
    SeamlessFollows(cfg, SeamlessArrive(cfg, s, WordOf(start, first)).0, start, first, {first}, first, arrivals);
    assert ([first] + arrivals)[1..] == arrivals;
    assert {} + {first as int} == {first as int};
  }

  // ----- the condition is exact -----

  /** A window that does not take any packet has its own number marked; every step keeps that. */
  predicate Marked(w: Window) {
    w.recvSeq < SEQ_SPACE && |w.history| >= 1 && (w.takeAny || w.history[0])
  }

  lemma {:induction false} MarkedIsKept(cfg: Config, s: State, word: nat)
    requires ValidState(cfg, s) && Marked(s.reg) && Marked(s.init)
    ensures var t := SeamlessArrive(cfg, s, word).0; Marked(t.reg) && Marked(t.init)
  {
    WindowStaysMarked(s.reg, word % SEQ_SPACE);
    WindowStaysMarked(s.reg.(takeAny := true), word % SEQ_SPACE);
    WindowStaysMarked(s.init, word % SEQ_SPACE);
    WindowStaysMarked(s.init.(takeAny := true), word % SEQ_SPACE);
  }

  lemma {:induction false} WindowStaysMarked(w: Window, num: nat)
    requires Marked(w) && num < SEQ_SPACE
    ensures Marked(NextWindow(w, num))
  {
    var delta := CalcDelta(num, w.recvSeq);
    if !w.takeAny && 0 < delta <= |w.history| { AdvancedAt(w.history, delta, 0); }
  }

  function Consecutive(n: nat, count: nat): (arrivals: seq<nat>)
    decreases count
  {
    if count == 0 then [] else [n] + Consecutive(n + 1, count - 1)
  }

  lemma {:induction false} InOrderIsSchedule(H: nat, start: nat, seen: set<int>, n: nat, count: nat)
    requires H >= 1 && start <= n
    ensures Schedule(H, start, seen, n - 1, Consecutive(n, count))
    decreases count
  {
    if count > 0 {
      InOrderIsSchedule(H, start, seen + {n}, n + 1, count - 1);
      assert Consecutive(n, count)[1..] == Consecutive(n + 1, count - 1);
    }
  }

  lemma {:induction false} FailsFrom(cfg: Config, s: State, start: nat, seen: set<int>, n: nat, rest: seq<nat>)
    requires ValidState(cfg, s) && start <= n
    requires var (t, pass) := SeamlessArrive(cfg, s, WordOf(start, n));
             (!pass && n !in seen) || !ExactlyOnce(cfg, t, start, seen + {n}, rest)
    ensures !ExactlyOnce(cfg, s, start, seen, [n] + rest)
  {
    assert ([n] + rest)[1..] == rest;
  }

  /** A packet behind the window's own number does not move the window. */
  lemma {:induction false} BehindStays(w: Window, base: int, n: nat, num: nat)
    requires 1 <= |w.history| < SEQ_SPACE / 2 && !w.takeAny && (base - w.recvSeq) % SEQ_SPACE == 0
    requires base - |w.history| < n <= base && num == n % SEQ_SPACE
    ensures CalcDelta(num, w.recvSeq) == n - base && (Accepts(w, num) <==> !w.history[base - n])
    ensures NextWindow(w, num) == w.(history := w.history[base - n := true])
  {
    CalcDeltaIsDistance(n, base, num, w.recvSeq);
  }

  lemma {:induction false} InitStuckStep(cfg: Config, s: State, start: nat, n: nat, base: int, target: int)
    requires Setting(cfg, start) && ValidState(cfg, s) && !s.init.takeAny && (base - s.init.recvSeq) % SEQ_SPACE == 0
    requires start <= n <= target < SEQ_SPACE && target <= base < n + cfg.historyLength
    requires s.init.history[base - target]
    ensures var (t, pass) := SeamlessArrive(cfg, s, WordOf(start, n));
            !t.init.takeAny && t.init.recvSeq == s.init.recvSeq && t.init.history[base - target] &&
            (n == target ==> !pass)
  {
    BehindStays(s.init, base, n, n);
    InitArrival(cfg, s, start, n);
  }

  /** The initial window stands at `base`, the bit of `target` is set, and the packets from n on come in order:
      target is refused if none before it is. */
  lemma {:induction false} InitStuck(cfg: Config, s: State, start: nat, seen: set<int>, n: nat, base: int, target: int)
    requires Setting(cfg, start) && ValidState(cfg, s) && !s.init.takeAny && (base - s.init.recvSeq) % SEQ_SPACE == 0
    requires start <= n <= target < SEQ_SPACE && target <= base < n + cfg.historyLength
    requires s.init.history[base - target] && forall m :: m in seen ==> m < n
    ensures !ExactlyOnce(cfg, s, start, seen, Consecutive(n, target - n + 1))
    decreases target - n
  {
    InitStuckStep(cfg, s, start, n, base, target);
    var rest := Consecutive(n + 1, target - n);
    if n < target {
      var t := SeamlessArrive(cfg, s, WordOf(start, n)).0;
      InitStuck(cfg, t, start, seen + {n}, n + 1, base, target);
      assert !ExactlyOnce(cfg, t, start, seen + {n}, rest);
    }
    FailsFrom(cfg, s, start, seen, n, rest);
  }

  /** A window that neither moves to the number nor has it in its history refuses it. */
  lemma {:induction false} NotTaken(cfg: Config, w: Window, num: nat, flagged: bool)
    requires 1 <= |w.history| == cfg.historyLength && !Taken(cfg, w, num, flagged)
    requires !(-|w.history| < CalcDelta(num, w.recvSeq) <= 0)
    ensures !Accepts(MaybeReset(cfg, w, num, flagged), num)
  {
  }

  /** In the initial window, some number that is still to come is marked. */
  lemma {:induction false} MarkedAhead(w: Window, first: nat) returns (base: int, target: int)
    requires Marked(w) && !w.takeAny && |w.history| < SEQ_SPACE / 2 && first < SEQ_SPACE
    requires -|w.history| < CalcDelta(first, w.recvSeq) <= 0 && !Beyond(w, first)
    ensures (base - w.recvSeq) % SEQ_SPACE == 0 && first <= target < SEQ_SPACE && target <= base < first + |w.history|
    ensures w.history[base - target]
  {
    base := first - CalcDelta(first, w.recvSeq);
    if base < SEQ_SPACE {
      target := base;
    } else {
      assert base == w.recvSeq + SEQ_SPACE;
      target :| first <= target < SEQ_SPACE && Bit(w, target);
    }
  }

  lemma {:induction false} InitNotReadyFails(cfg: Config, s: State, start: nat, first: nat) returns (arrivals: seq<nat>)
    requires Setting(cfg, start) && ValidState(cfg, s) && Marked(s.init) && start <= first < SEQ_SPACE
    requires !Taken(cfg, s.init, first, Flagged(start, first)) && !Beyond(s.init, first)
    ensures Schedule(cfg.historyLength, start, {first}, first, arrivals)
    ensures !ExactlyOnce(cfg, s, start, {}, [first] + arrivals)
  {
    if -1 * cfg.historyLength < CalcDelta(first, s.init.recvSeq) <= 0 {
      var base, target := MarkedAhead(s.init, first);
      arrivals := Consecutive(first + 1, target - first);
      InOrderIsSchedule(cfg.historyLength, start, {first}, first + 1, target - first);
      InitStuck(cfg, s, start, {}, first, base, target);
    } else {
      arrivals := [];
      NotTaken(cfg, s.init, first, Flagged(start, first));
      InitArrival(cfg, s, start, first);
      FailsFrom(cfg, s, start, {}, first, []);
    }
  }

  // ----- a regular window that is not ready -----

  /** The regular window stands at `base`, beyond n: its own number is refused if none before it is. */
  lemma {:induction false} RegularStuck(cfg: Config, s: State, start: nat, seen: set<int>, n: nat, base: int)
    requires Setting(cfg, start) && ValidState(cfg, s) && !s.reg.takeAny && s.reg.history[0]
    requires (base - s.reg.recvSeq) % SEQ_SPACE == 0 && SEQ_SPACE <= n <= base < n + cfg.historyLength
    requires forall m :: m in seen ==> m < n
    ensures !ExactlyOnce(cfg, s, start, seen, Consecutive(n, base - n + 1))
    decreases base - n
  {
    BehindStays(s.reg, base, n, n % SEQ_SPACE);
    RegularStep(cfg, s, start, n);
    if n < base { RegularStuck(cfg, SeamlessArrive(cfg, s, WordOf(start, n)).0, start, seen + {n}, n + 1, base); }
    FailsFrom(cfg, s, start, seen, n, Consecutive(n + 1, base - n));
  }

  /** How many numbers after one that is not taken the window's own comes. */
  function Tail(cfg: Config, w: Window, num: nat): nat {
    var delta := CalcDelta(num, w.recvSeq);
    if -1 * cfg.historyLength < delta <= 0 then -delta else 0
  }

  /** A regular number that is not taken, coming first, and those after it in order. */
  lemma {:induction false} StrandedFails(cfg: Config, s: State, start: nat, seen: set<int>, n: nat, count: nat)
    requires Setting(cfg, start) && ValidState(cfg, s) && Marked(s.reg) && SEQ_SPACE <= n
    requires !Taken(cfg, s.reg, n % SEQ_SPACE, Flagged(start, n))
    requires count == Tail(cfg, s.reg, n % SEQ_SPACE) && forall m :: m in seen ==> m < n
    ensures !ExactlyOnce(cfg, s, start, seen, Consecutive(n, count + 1))
  {
    var delta := CalcDelta(n % SEQ_SPACE, s.reg.recvSeq);
    if -1 * cfg.historyLength < delta <= 0 {
      OwnNumber(s.reg.recvSeq, n);
      RegularStuck(cfg, s, start, seen, n, n - delta);
    } else {
      NotTaken(cfg, s.reg, n % SEQ_SPACE, Flagged(start, n));
      RegularArrival(cfg, s, start, n);
      FailsFrom(cfg, s, start, seen, n, Consecutive(n + 1, 0));
    }
  }

  lemma {:induction false} OwnNumber(recvSeq: nat, n: nat)
    ensures (n - CalcDelta(n % SEQ_SPACE, recvSeq) - recvSeq) % SEQ_SPACE == 0
  {
  }

  lemma {:induction false} RegularWaits(cfg: Config, s: State, start: nat, n: nat)
    requires Setting(cfg, start) && ValidState(cfg, s) && start <= n && SEQ_SPACE - cfg.historyLength <= n < SEQ_SPACE
    ensures SeamlessArrive(cfg, s, WordOf(start, n)).0.reg == s.reg
  {
    InitArrival(cfg, s, start, n);
  }

  /** The initial numbers from n on, then regular ones from j on. */
  function Late(n: nat, j: nat, count: nat): seq<nat>
    requires n <= SEQ_SPACE
    decreases SEQ_SPACE - n
  {
    if n == SEQ_SPACE then Consecutive(SEQ_SPACE + j, count + 1) else [n] + Late(n + 1, j, count)
  }

  lemma {:induction false} LateFails(cfg: Config, s: State, start: nat, seen: set<int>, n: nat, j: nat, count: nat)
    requires Setting(cfg, start) && ValidState(cfg, s) && Marked(s.reg) && j < cfg.historyLength
    requires start <= n && SEQ_SPACE - cfg.historyLength <= n <= SEQ_SPACE && forall m :: m in seen ==> m < n
    requires !RegularTaken(cfg, s.reg, start, j) && count == Tail(cfg, s.reg, j)
    ensures !ExactlyOnce(cfg, s, start, seen, Late(n, j, count))
    decreases SEQ_SPACE - n
  {
    if n == SEQ_SPACE {
      RegularNumber(SEQ_SPACE + j);
      StrandedFails(cfg, s, start, seen, SEQ_SPACE + j, count);
    } else {
      RegularWaits(cfg, s, start, n);
      var t := SeamlessArrive(cfg, s, WordOf(start, n)).0;
      LateFails(cfg, t, start, seen + {n}, n + 1, j, count);
      FailsFrom(cfg, s, start, seen, n, Late(n + 1, j, count));
    }
  }

  lemma {:induction false} LateIsSchedule(H: nat, start: nat, seen: set<int>, n: nat, j: nat, count: nat)
    requires start < n <= SEQ_SPACE && j < H
    ensures Schedule(H, start, seen, n - 1, Late(n, j, count))
    decreases SEQ_SPACE - n
  {
    if n == SEQ_SPACE {
      var first, rest := SEQ_SPACE + j, Consecutive(SEQ_SPACE + j + 1, count);
      InOrderIsSchedule(H, start, seen + {first}, first + 1, count);
      assert ([first] + rest)[1..] == rest;
    } else {
      LateIsSchedule(H, start, seen + {n}, n + 1, j, count);
      assert ([n] + Late(n + 1, j, count))[1..] == Late(n + 1, j, count);
    }
  }

  lemma {:induction false} RegularNotReadyFails(cfg: Config, s: State, start: nat, first: nat)
    returns (arrivals: seq<nat>)
    requires Setting(cfg, start) && ValidState(cfg, s) && Marked(s.reg) && !RegularReady(cfg, s.reg, start)
    requires start <= first && SEQ_SPACE - cfg.historyLength <= first < SEQ_SPACE
    ensures Schedule(cfg.historyLength, start, {first}, first, arrivals)
    ensures !ExactlyOnce(cfg, s, start, {}, [first] + arrivals)
  {
    var j :| 0 <= j < cfg.historyLength && !RegularTaken(cfg, s.reg, start, j);
    var count := Tail(cfg, s.reg, j);
    arrivals := Late(first + 1, j, count);
    LateIsSchedule(cfg.historyLength, start, {first}, first + 1, j, count);
    LateFails(cfg, s, start, {}, first, j, count);
  }

  /** A schedule that begins with packet `first` and fails, whenever the recovery is not ready for it. */
  lemma {:induction false} NotReadyFails(cfg: Config, s: State, start: nat, first: nat) returns (arrivals: seq<nat>)
    requires Setting(cfg, start) && ValidState(cfg, s) && Marked(s.init) && Marked(s.reg)
    requires start <= first && !ReadyFor(cfg, s, start, first)
    ensures Schedule(cfg.historyLength, start, {first}, first, arrivals)
    ensures !ExactlyOnce(cfg, s, start, {}, [first] + arrivals)
  {
    if first >= SEQ_SPACE {
      var count := Tail(cfg, s.reg, first % SEQ_SPACE);
      arrivals := Consecutive(first + 1, count);
      InOrderIsSchedule(cfg.historyLength, start, {first}, first + 1, count);
      StrandedFails(cfg, s, start, {}, first, count);
    } else if Taken(cfg, s.init, first, Flagged(start, first)) || Beyond(s.init, first) {
      arrivals := RegularNotReadyFails(cfg, s, start, first);
    } else {
      arrivals := InitNotReadyFails(cfg, s, start, first);
    }
  }

  /** For every start and whichever packet arrives first: the seamless reset works for all schedules from there
      exactly when the recovery is ready for it. */
  lemma {:induction false} SeamlessExactlyWhenReady(cfg: Config, s: State, start: nat, first: nat)
    requires Setting(cfg, start) && ValidState(cfg, s) && Marked(s.init) && Marked(s.reg) && start <= first
    ensures ReadyFor(cfg, s, start, first) <==>
            forall arrivals :: Schedule(cfg.historyLength, start, {first}, first, arrivals) ==>
              ExactlyOnce(cfg, s, start, {}, [first] + arrivals)
  {
    if ReadyFor(cfg, s, start, first) {
      forall arrivals | Schedule(cfg.historyLength, start, {first}, first, arrivals)
        ensures ExactlyOnce(cfg, s, start, {}, [first] + arrivals)
      {
        SeamlessRun(cfg, s, start, first, arrivals);
      }
    } else {
      var arrivals := NotReadyFails(cfg, s, start, first);
    }
  }

  // ----- which packets may be lost first -----

  /** A recovery that is ready for packet 100 but not for 101, although both carry the reset flag: 100 is more than
      2H behind its window, 101 is not. */
  lemma {:induction false} LostFirstFails(cfg: Config, s: State)
    requires Setting(cfg, 100) && cfg.historyLength == 4 && ValidState(cfg, s)
    requires s.init.recvSeq == 108 && !s.init.takeAny
    ensures ReadyFor(cfg, s, 100, 100) && !ReadyFor(cfg, s, 100, 101) && Flagged(100, 101)
    ensures !SeamlessArrive(cfg, s, WordOf(100, 101)).1
  {
    CalcDeltaIsDistance(101, 108, 101, 108);
    InitArrival(cfg, s, 100, 101);
  }

  /** The distance to a number j further on. */
  lemma {:induction false} LaterDelta(num: nat, recvSeq: nat, j: nat)
    requires j < SEQ_SPACE / 2
    ensures var d := CalcDelta(num, recvSeq) + j;
            CalcDelta(num + j, recvSeq) == if d < SEQ_SPACE / 2 then d else d - SEQ_SPACE
  {
    var d := CalcDelta(num, recvSeq) + j;
    CalcDeltaIsDistance(recvSeq + (if d < SEQ_SPACE / 2 then d else d - SEQ_SPACE), recvSeq, num + j, recvSeq);
  }

  /** All of the next `count` numbers are taken, whichever comes first; the first `flags` of them are flagged. */
  predicate TakenAmong(cfg: Config, w: Window, num: nat, j: nat, flags: nat) { Taken(cfg, w, num + j, j < flags) }

  predicate AllTaken(cfg: Config, w: Window, num: nat, count: nat, flags: nat) {
    forall j :: 0 <= j < count ==> TakenAmong(cfg, w, num, j, flags)
  }

  /** When all of them are flagged: the number is ahead, or far enough behind for all. */
  lemma {:induction false} AllFlaggedTaken(cfg: Config, w: Window, num: nat, count: nat)
    requires 1 <= cfg.historyLength < SEQ_SPACE / 4 && 1 <= count <= 3
    ensures AllTaken(cfg, w, num, count, count) <==>
            w.takeAny || CalcDelta(num, w.recvSeq) >= 1 ||
            CalcDelta(num, w.recvSeq) <= 1 - 2 * cfg.historyLength - count
  {
    var H: int, d := cfg.historyLength, CalcDelta(num, w.recvSeq);
    forall j | 0 <= j < count
      ensures w.takeAny || d >= 1 || d <= 1 - 2 * H - count ==> TakenAmong(cfg, w, num, j, count)
    {
      LaterDelta(num, w.recvSeq, j);
    }
    if !w.takeAny && 1 - 2 * H - count < d <= 0 {
      var j := if d > -2 * H then 0 else 1 - 2 * H - d;
      LaterDelta(num, w.recvSeq, j);
      assert !TakenAmong(cfg, w, num, j, count);
    }
  }

  /** When any of the next H may come first and not all are flagged: the window stands right before the first. */
  lemma {:induction false} AnyTaken(cfg: Config, w: Window, num: nat, flags: nat)
    requires 1 <= cfg.historyLength < SEQ_SPACE / 2 && (flags == 0 || (flags == 3 && cfg.historyLength >= 4))
    ensures AllTaken(cfg, w, num, cfg.historyLength, flags) <==> w.takeAny || CalcDelta(num, w.recvSeq) == 1
  {
    var H: int, d := cfg.historyLength, CalcDelta(num, w.recvSeq);
    forall j | 0 <= j < H
      ensures w.takeAny || d == 1 ==> TakenAmong(cfg, w, num, j, flags)
    {
      LaterDelta(num, w.recvSeq, j);
    }
    if !w.takeAny && d != 1 {
      var j := if d >= 2 then H - 1 else if flags == 3 && d <= -3 then 3 else 0;
      LaterDelta(num, w.recvSeq, j);
      assert !TakenAmong(cfg, w, num, j, flags);
    }
  }

  /** The regular window is ready when it takes any packet or stands right before 0; or, with a history of at most
      3 and a start so late that the first regular packets are flagged, unless it stands from 0 to 3H - 2. */
  lemma {:induction false} RegularReadyExactly(cfg: Config, w: Window, start: nat)
    requires Setting(cfg, start)
    ensures var d, H := CalcDelta(0, w.recvSeq), cfg.historyLength;
            RegularReady(cfg, w, start) <==>
            w.takeAny || d == 1 || (start >= SEQ_SPACE - 3 && H <= 3 && (d >= 1 || d <= 1 - 3 * H))
  {
    var H := cfg.historyLength;
    var flags := if start < SEQ_SPACE - 3 then 0 else if H <= 3 then H else 3;
    forall j | 0 <= j < H
      ensures RegularTaken(cfg, w, start, j) <==> TakenAmong(cfg, w, 0, j, flags)
    {
    }
    if flags != 0 && H <= 3 { AllFlaggedTaken(cfg, w, 0, H); } else { AnyTaken(cfg, w, 0, flags); }
  }

  /** Ready whichever of the first `count` packets is the first that arrives. */
  predicate ReadyForAny(cfg: Config, s: State, start: nat, count: nat)
    requires start < SEQ_SPACE
  {
    forall first :: start <= first < start + count ==> ReadyFor(cfg, s, start, first)
  }

  /** A start with room behind it: up to two of the flagged packets lost first. */
  lemma {:induction false} ReadyForLostFlags(cfg: Config, s: State, start: nat, count: nat)
    requires Setting(cfg, start) && cfg.historyLength < SEQ_SPACE / 4 && ValidState(cfg, s) && 1 <= count <= 3
    requires start + count <= SEQ_SPACE - cfg.historyLength && start < SEQ_SPACE - 3
    ensures var delta := CalcDelta(start, s.init.recvSeq);
            ReadyForAny(cfg, s, start, count) <==>
            s.init.takeAny || delta >= 1 || delta <= 1 - 2 * cfg.historyLength - count
  {
    AllFlaggedTaken(cfg, s.init, start, count);
    FirstAreTaken(cfg, s, start, count, count);
  }

  /** A start with room behind it, a history of 4 or more, and as many packets lost first as any other time. */
  lemma {:induction false} ReadyForAnyLoss(cfg: Config, s: State, start: nat)
    requires Setting(cfg, start) && cfg.historyLength >= 4 && ValidState(cfg, s)
    requires start + 2 * cfg.historyLength <= SEQ_SPACE
    ensures ReadyForAny(cfg, s, start, cfg.historyLength) <==>
            s.init.takeAny || CalcDelta(start, s.init.recvSeq) == 1
  {
    AnyTaken(cfg, s.init, start, 3);
    FirstAreTaken(cfg, s, start, cfg.historyLength, 3);
  }

  lemma {:induction false} FirstAreTaken(cfg: Config, s: State, start: nat, count: nat, flags: nat)
    requires Setting(cfg, start) && ValidState(cfg, s) && start + count <= SEQ_SPACE - cfg.historyLength
    requires start < SEQ_SPACE - 3 && (flags == 3 || flags == count <= 3)
    ensures ReadyForAny(cfg, s, start, count) <==> AllTaken(cfg, s.init, start, count, flags)
  {
    forall j | 0 <= j < count
      ensures ReadyFor(cfg, s, start, start + j) <==> TakenAmong(cfg, s.init, start, j, flags)
    {
    }
    if ReadyForAny(cfg, s, start, count) {
      forall j | 0 <= j < count
        ensures TakenAmong(cfg, s.init, start, j, flags)
      {
        assert ReadyFor(cfg, s, start, start + j);
      }
    }
    if AllTaken(cfg, s.init, start, count, flags) {
      forall first | start <= first < start + count
        ensures ReadyFor(cfg, s, start, first)
      {
        assert TakenAmong(cfg, s.init, start, first - start, flags);
      }
    }
  }

  // ----- packets that overtake each other -----

  /** Whether both packets are passed when the second overtakes the first: a reset does not clear the history,
      so bits of an earlier epoch count. */
  predicate OvertakingPasses(cfg: Config, w: Window, start: nat)
    requires |w.history| == cfg.historyLength >= 2
  {
    var delta := CalcDelta(start + 1, w.recvSeq);
    if w.takeAny || ResetApplies(cfg, start + 1, w.recvSeq) then !w.history[1]
    else if delta == 1 then !w.history[0]
    else if delta > 1 then true
    else delta > 1 - cfg.historyLength && !w.history[-delta] && !w.history[1 - delta]
  }

  lemma {:induction false} OneBehind(cfg: Config, w: Window, start: nat)
    requires 2 <= |w.history| == cfg.historyLength && w.recvSeq == start + 1 && !w.takeAny
    ensures Accepts(MaybeReset(cfg, w, start, true), start) <==> !w.history[1]
  {
    CalcDeltaIsDistance(start, start + 1, start, w.recvSeq);
  }

  /** One number less: one less distance, or from the lowest to the highest. */
  lemma {:induction false} PreviousDelta(num: nat, recvSeq: nat)
    ensures CalcDelta(num + 1, recvSeq) > -SEQ_SPACE / 2 ==> CalcDelta(num, recvSeq) == CalcDelta(num + 1, recvSeq) - 1
  {
    var d := CalcDelta(num + 1, recvSeq);
    if d > -SEQ_SPACE / 2 { CalcDeltaIsDistance(recvSeq + d - 1, recvSeq, num, recvSeq); }
  }

  lemma {:induction false} BothBehind(w: Window, start: nat)
    requires 2 <= |w.history| < SEQ_SPACE / 2 && !w.takeAny && CalcDelta(start + 1, w.recvSeq) <= 0
    requires -2 * |w.history| < CalcDelta(start + 1, w.recvSeq) && Accepts(w, start + 1)
    ensures var v := NextWindow(w, start + 1); var delta := CalcDelta(start + 1, w.recvSeq);
            v.recvSeq == w.recvSeq && !v.takeAny && CalcDelta(start, w.recvSeq) == delta - 1 &&
            (Accepts(v, start) <==> delta > 1 - |w.history| && !w.history[1 - delta])
  {
    PreviousDelta(start, w.recvSeq);
  }

  lemma {:induction false} Overtaken(cfg: Config, w: Window, start: nat)
    requires 2 <= |w.history| == cfg.historyLength
    requires w.takeAny || CalcDelta(start + 1, w.recvSeq) >= 1 || ResetApplies(cfg, start + 1, w.recvSeq)
    ensures var v := MaybeReset(cfg, w, start + 1, true);
            Accepts(v, start + 1) && NextWindow(v, start + 1).recvSeq == start + 1 &&
            !NextWindow(v, start + 1).takeAny &&
            (NextWindow(v, start + 1).history[1] <==> !OvertakingPasses(cfg, w, start))
  {
    var v := MaybeReset(cfg, w, start + 1, true);
    if !v.takeAny { AdvancedAt(w.history, CalcDelta(start + 1, w.recvSeq), 1); }
  }

  lemma {:induction false} SwappedPackets(cfg: Config, w: Window, start: nat)
    requires 2 <= |w.history| == cfg.historyLength < SEQ_SPACE / 2
    ensures var v := MaybeReset(cfg, w, start + 1, true);
            var u := NextWindow(v, start + 1);
            (Accepts(v, start + 1) && Accepts(MaybeReset(cfg, u, start, true), start)) ==
            OvertakingPasses(cfg, w, start)
  {
    var v := MaybeReset(cfg, w, start + 1, true);
    var u := NextWindow(v, start + 1);
    if w.takeAny || CalcDelta(start + 1, w.recvSeq) >= 1 || ResetApplies(cfg, start + 1, w.recvSeq) {
      Overtaken(cfg, w, start);
      OneBehind(cfg, u, start);
    } else if Accepts(w, start + 1) {
      BothBehind(w, start);
    }
  }

  /** In every state: the first and the second packet, swapped, are both passed exactly then. */
  lemma {:induction false} OvertakenStart(cfg: Config, s: State, start: nat)
    requires Setting(cfg, start) && start + 1 < SEQ_SPACE && ValidState(cfg, s) && cfg.historyLength >= 2
    ensures var (t, pass) := SeamlessArrive(cfg, s, WordOf(start, start + 1));
            pass && SeamlessArrive(cfg, t, WordOf(start, start)).1 <==> OvertakingPasses(cfg, s.init, start)
  {
    InitArrival(cfg, s, start, start + 1);
    InitArrival(cfg, SeamlessArrive(cfg, s, WordOf(start, start + 1)).0, start, start);
    SwappedPackets(cfg, s.init, start);
  }

  // ----- packets out of order, without stale bits -----

  /** Anything less than H behind the newest or at most H beyond it may arrive, new or not, in any order. */
  predicate Reordered(H: nat, start: nat, newest: int, arrivals: seq<nat>)
    decreases |arrivals|
  {
    arrivals == [] ||
    var n := arrivals[0];
    start <= n && newest - H < n <= newest + H && Reordered(H, start, if n > newest then n else newest, arrivals[1..])
  }

  /** A window as a reset of the recovery leaves it. */
  predicate Clear(w: Window) { w.takeAny && forall i :: 0 <= i < |w.history| ==> !w.history[i] }

  /** The window shows exactly these numbers, the highest being its base. */
  ghost predicate Holds(w: Window, base: int, marks: set<int>) {
    VectorRuns.Represents(w, VectorRuns.Track(0, base, marks)) && (w.takeAny <==> marks == {}) &&
    (marks != {} ==> base in marks)
  }

  /** The regular numbers among `seen`, counted from 0. */
  ghost function Regulars(seen: set<int>): set<int> { set n | n in seen && n >= SEQ_SPACE :: n - SEQ_SPACE }

  lemma {:induction false} HoldsNext(w: Window, base: int, marks: set<int>, n: int, num: nat) returns (base': int)
    requires 1 <= |w.history| < SEQ_SPACE / 2 && Holds(w, base, marks) && (n - num) % SEQ_SPACE == 0
    requires if w.takeAny then n == num else base - |w.history| < n <= base + |w.history|
    ensures (Accepts(w, num) <==> n !in marks) && Holds(NextWindow(w, num), base', marks + {n})
    ensures !w.takeAny ==> -|w.history| < CalcDelta(num, w.recvSeq) <= |w.history|
    ensures base' == if w.takeAny || n > base then n else base
  {
    var t := VectorRuns.Track(0, base, marks);
    if !w.takeAny { CalcDeltaIsDistance(n, base, num, w.recvSeq); }
    VectorRuns.WindowStep(w, t, num);
    base' := if w.takeAny || n > base then n else base;
    if n in marks { assert marks + {n} == marks; }
  }

  /** Both windows after the packets `seen`. */
  ghost predicate Exact(cfg: Config, s: State, start: nat, seen: set<int>, newest: int, initBase: int, regBase: int) {
    ValidState(cfg, s) && Holds(s.init, initBase, InitPart(seen)) && Holds(s.reg, regBase, Regulars(seen)) &&
    (forall n :: n in seen ==> start <= n <= newest) && (if seen == {} then newest == start - 1 else newest in seen) &&
    (newest >= SEQ_SPACE && InitPart(seen) != {} ==> initBase >= SEQ_SPACE - cfg.historyLength)
  }

  lemma {:induction false} ReorderedInit(cfg: Config, s: State, start: nat, seen: set<int>, newest: int, n: nat,
                                         initBase: int, regBase: int) returns (base': int)
    requires Setting(cfg, start) && Exact(cfg, s, start, seen, newest, initBase, regBase)
    requires start <= n < SEQ_SPACE && newest - cfg.historyLength < n <= newest + cfg.historyLength
    ensures var (t, pass) := SeamlessArrive(cfg, s, WordOf(start, n));
            (pass <==> n !in seen) && Exact(cfg, t, start, seen + {n}, if n > newest then n else newest, base', regBase)
  {
    InitArrival(cfg, s, start, n);
    assert InitPart(seen + {n}) == InitPart(seen) + {n} && Regulars(seen + {n}) == Regulars(seen);
    if !s.init.takeAny { BaseOfInit(cfg, s, start, seen, newest, initBase, regBase); }
    base' := HoldsNext(s.init, initBase, InitPart(seen), n, n);
    if n < SEQ_SPACE - cfg.historyLength { assert newest - SEQ_SPACE !in Regulars(seen); NoRegulars(seen, newest); }
  }

  lemma {:induction false} NoRegulars(seen: set<int>, newest: int)
    requires newest < SEQ_SPACE && forall n :: n in seen ==> n <= newest
    ensures Regulars(seen) == {}
  {
  }

  lemma {:induction false} BaseOfInit(cfg: Config, s: State, start: nat, seen: set<int>, newest: int,
                                      initBase: int, regBase: int)
    requires Exact(cfg, s, start, seen, newest, initBase, regBase) && !s.init.takeAny
    ensures initBase < SEQ_SPACE &&
            if newest < SEQ_SPACE then initBase == newest else initBase >= SEQ_SPACE - cfg.historyLength
  {
    assert initBase in InitPart(seen);
    if newest < SEQ_SPACE { assert newest in InitPart(seen); }
  }

  lemma {:induction false} RegularParts(seen: set<int>, n: nat)
    requires n >= SEQ_SPACE
    ensures InitPart(seen + {n}) == InitPart(seen) && Regulars(seen + {n}) == Regulars(seen) + {n - SEQ_SPACE}
  {
    assert n - SEQ_SPACE in Regulars(seen + {n});
  }

  lemma {:induction false} ReorderedRegular(cfg: Config, s: State, start: nat, seen: set<int>, newest: int, n: nat,
                                            initBase: int, regBase: int) returns (base': int)
    requires Setting(cfg, start) && Exact(cfg, s, start, seen, newest, initBase, regBase)
    requires SEQ_SPACE <= n && newest - cfg.historyLength < n <= newest + cfg.historyLength
    ensures var (t, pass) := SeamlessArrive(cfg, s, WordOf(start, n));
            (pass <==> n !in seen) &&
                Exact(cfg, t, start, seen + {n}, if n > newest then n else newest, initBase, base')
  {
    RegularParts(seen, n);
    if !s.init.takeAny { BaseOfInit(cfg, s, start, seen, newest, initBase, regBase); }
    BaseOfRegular(cfg, s, start, seen, newest, initBase, regBase);
    RegularNumber(n);
    base' := HoldsNext(s.reg, regBase, Regulars(seen), n - SEQ_SPACE, n % SEQ_SPACE);
    RegularStep(cfg, s, start, n);
  }

  lemma {:induction false} BaseOfRegular(cfg: Config, s: State, start: nat, seen: set<int>, newest: int,
                                         initBase: int, regBase: int)
    requires Exact(cfg, s, start, seen, newest, initBase, regBase) && start < SEQ_SPACE
    ensures if s.reg.takeAny then newest < SEQ_SPACE else regBase == newest - SEQ_SPACE
  {
    if newest >= SEQ_SPACE { assert newest - SEQ_SPACE in Regulars(seen); }
  }

  lemma {:induction false} ReorderedFollows(cfg: Config, s: State, start: nat, seen: set<int>, newest: int,
                                            initBase: int, regBase: int, arrivals: seq<nat>)
    requires Setting(cfg, start) && Exact(cfg, s, start, seen, newest, initBase, regBase)
    requires Reordered(cfg.historyLength, start, newest, arrivals)
    ensures ExactlyOnce(cfg, s, start, seen, arrivals)
    decreases |arrivals|
  {
    if arrivals != [] {
      var n, ib, rb := arrivals[0], initBase, regBase;
      if n < SEQ_SPACE {
        ib := ReorderedInit(cfg, s, start, seen, newest, n, initBase, regBase);
      } else {
        rb := ReorderedRegular(cfg, s, start, seen, newest, n, initBase, regBase);
      }
      ReorderedFollows(cfg, SeamlessArrive(cfg, s, WordOf(start, n)).0, start, seen + {n},
                       if n > newest then n else newest, ib, rb, arrivals[1..]);
    }
  }

  /** From cleared windows, every start and every arrival order within H, with losses and copies: each packet
      that arrives is passed exactly once. */
  lemma {:induction false} ReorderedRun(cfg: Config, s: State, start: nat, arrivals: seq<nat>)
    requires Setting(cfg, start) && ValidState(cfg, s) && Clear(s.reg) && Clear(s.init)
    requires Reordered(cfg.historyLength, start, start - 1, arrivals)
    ensures ExactlyOnce(cfg, s, start, {}, arrivals)
  {
    assert InitPart({}) == {} && Regulars({}) == {};
    ReorderedFollows(cfg, s, start, {}, start - 1, 0, 0, arrivals);
  }
}
