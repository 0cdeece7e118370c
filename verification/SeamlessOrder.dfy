/** The seamless reset met by what an earlier epoch left behind (seq_recov.c): stale bits of the history when packets
    overtake each other, windows of a reset that came too early, late copies of packets sent before the reset. */
module SeamlessOrder {
  import opened SeqRecovery
  import opened SeqGenerator
  import opened SeamlessReset
  import VectorRuns

  // ----- one window, whatever it holds -----

  /** One window, on the packets that come to it: each is passed at its first arrival only. */
  predicate OnceIn(cfg: Config, w: Window, start: nat, seen: set<int>, ns: seq<nat>)
    requires |w.history| >= 1
    decreases |ns|
  {
    ns == [] ||
    (start <= ns[0] &&
     var v := MaybeReset(cfg, w, ns[0] % SEQ_SPACE, Flagged(start, ns[0]));
     (Accepts(v, ns[0] % SEQ_SPACE) <==> ns[0] !in seen) &&
     OnceIn(cfg, NextWindow(v, ns[0] % SEQ_SPACE), start, seen + {ns[0]}, ns[1..]))
  }

  /** The window that packet n, the first to come to it, leaves behind, and the absolute number it then stands at. */
  function Entered(cfg: Config, w: Window, start: nat, n: nat): Window
    requires |w.history| >= 1 && start <= n
  {
    NextWindow(MaybeReset(cfg, w, n % SEQ_SPACE, Flagged(start, n)), n % SEQ_SPACE)
  }

  function StandsAt(w: Window, n: nat): int { n - CalcDelta(n % SEQ_SPACE, w.recvSeq) }

  predicate MarkedAt(w: Window, base: int, n: int) { 0 <= base - n < |w.history| && w.history[base - n] }

  /** Too old for the window, or marked in it. */
  predicate Blocked(w: Window, base: int, n: int) { n <= base - |w.history| || MarkedAt(w, base, n) }

  /** Packet n is the first one again, or the window stood open for it. */
  predicate Free(w: Window, base: int, a: nat, n: nat) { n == a || !Blocked(w, base, n) }

  predicate AllFree(w: Window, base: int, a: nat, ns: seq<nat>) {
    forall k :: 0 <= k < |ns| ==> Free(w, base, a, ns[k])
  }

  /** The first packet is let in, and no later one meets a bit that was there before, or the window's lower end. */
  predicate Undisturbed(cfg: Config, w: Window, start: nat, ns: seq<nat>)
    requires |w.history| >= 1
  {
    ns == [] ||
    (start <= ns[0] && Accepts(MaybeReset(cfg, w, ns[0] % SEQ_SPACE, Flagged(start, ns[0])), ns[0] % SEQ_SPACE) &&
     var u := Entered(cfg, w, start, ns[0]);
     AllFree(u, StandsAt(u, ns[0]), ns[0], ns[1..]))
  }

  ghost function Stale(w: Window, base: int): set<int> {
    set n: int | base - |w.history| < n <= base && MarkedAt(w, base, n)
  }

  function Max(a: int, b: int): int { if a > b then a else b }

  /** The window x after the packets `seen`, the first of which, a, left the window u at the number b. */
  ghost predicate Since(x: Window, u: Window, a: nat, b: int, seen: set<int>, newest: int) {
    |x.history| == |u.history| && !x.takeAny && a in seen && newest in seen && a <= b < a + |u.history| &&
    VectorRuns.Represents(x, VectorRuns.Track(0, Max(b, newest), Stale(u, b) + seen)) &&
    forall m :: m in seen ==> b - |u.history| < m <= newest
  }

  /** No reset flag counts any more. */
  lemma {:induction false} FlagIgnored(cfg: Config, x: Window, base: int, n: nat, flagged: bool)
    requires 1 <= |x.history| == cfg.historyLength < SEQ_SPACE / 4 && (base - x.recvSeq) % SEQ_SPACE == 0
    requires base - 2 * cfg.historyLength < n <= base + cfg.historyLength
    ensures CalcDelta(n % SEQ_SPACE, x.recvSeq) == n - base && MaybeReset(cfg, x, n % SEQ_SPACE, flagged) == x
  {
    CalcDeltaIsDistance(n, base, n % SEQ_SPACE, x.recvSeq);
  }

  lemma {:induction false} SinceStep(cfg: Config, x: Window, u: Window, a: nat, b: int, seen: set<int>, newest: int,
                                     n: nat, flagged: bool)
    requires 1 <= |u.history| == cfg.historyLength < SEQ_SPACE / 4 && Since(x, u, a, b, seen, newest)
    requires newest - cfg.historyLength < n <= newest + cfg.historyLength
    ensures Accepts(x, n % SEQ_SPACE) <==> n !in seen && !Blocked(u, b, n)
    ensures n in seen || !Blocked(u, b, n) ==>
            Since(NextWindow(x, n % SEQ_SPACE), u, a, b, seen + {n}, Max(newest, n))
    ensures MaybeReset(cfg, x, n % SEQ_SPACE, flagged) == x
  {
    var base := Max(b, newest);
    var t, num := VectorRuns.Track(0, base, Stale(u, b) + seen), n % SEQ_SPACE;
    FlagIgnored(cfg, x, base, n, flagged);
    VectorRuns.WindowStep(x, t, num);
    if n in seen {
      assert seen + {n} == seen;
    } else {
      assert Stale(u, b) + seen + {n} == Stale(u, b) + (seen + {n});
    }
  }

  /** All that were let in stood free. */
  ghost predicate SeenFree(u: Window, a: nat, b: int, seen: set<int>) {
    forall m: nat :: m in seen ==> Free(u, b, a, m)
  }

  lemma {:induction false} OnceRest(cfg: Config, x: Window, u: Window, start: nat, a: nat, b: int, seen: set<int>,
                                    newest: int, ns: seq<nat>)
    requires 1 <= |u.history| == cfg.historyLength < SEQ_SPACE / 4 && Since(x, u, a, b, seen, newest)
    requires SeenFree(u, a, b, seen) && Reordered(cfg.historyLength, start, newest, ns)
    ensures OnceIn(cfg, x, start, seen, ns) <==> AllFree(u, b, a, ns)
    decreases |ns|
  {
    if ns != [] {
      var n := ns[0];
      SinceStep(cfg, x, u, a, b, seen, newest, n, Flagged(start, n));
      if n in seen || !Blocked(u, b, n) {
        OnceRest(cfg, NextWindow(x, n % SEQ_SPACE), u, start, a, b, seen + {n}, Max(newest, n), ns[1..]);
        FreeCons(u, b, a, ns);
      } else {
        assert !Free(u, b, a, ns[0]);
      }
    }
  }

  lemma {:induction false} FreeCons(u: Window, b: int, a: nat, ns: seq<nat>)
    requires ns != [] && Free(u, b, a, ns[0])
    ensures AllFree(u, b, a, ns) <==> AllFree(u, b, a, ns[1..])
  {
    if AllFree(u, b, a, ns[1..]) {
      forall k | 0 <= k < |ns|
        ensures Free(u, b, a, ns[k])
      {
        if k > 0 { assert Free(u, b, a, ns[1..][k - 1]); }
      }
    }
    if AllFree(u, b, a, ns) {
      forall k | 0 <= k < |ns| - 1
        ensures Free(u, b, a, ns[1..][k])
      {
        assert Free(u, b, a, ns[k + 1]);
      }
    }
  }

  /** Where a packet that is let in leaves the window. */
  lemma {:induction false} LetIn(v: Window, a: nat)
    requires 1 <= |v.history| < SEQ_SPACE / 2 && Accepts(v, a % SEQ_SPACE)
    ensures var u := NextWindow(v, a % SEQ_SPACE);
            var b := StandsAt(u, a);
            !u.takeAny && a <= b < a + |u.history| && (b - u.recvSeq) % SEQ_SPACE == 0 && u.history[b - a]
  {
    var num := a % SEQ_SPACE;
    var delta := CalcDelta(num, v.recvSeq);
    if !v.takeAny && 0 < delta { AdvancedAt(v.history, delta, 0); }
  }

  lemma {:induction false} BeginsSince(u: Window, a: nat, b: int)
    requires !u.takeAny && a <= b < a + |u.history| && (b - u.recvSeq) % SEQ_SPACE == 0 && u.history[b - a]
    ensures Since(u, u, a, b, {a}, a)
  {
    assert MarkedAt(u, b, a);
    forall i | 0 <= i < |u.history|
      ensures u.history[i] <==> b - i in Stale(u, b) + {a}
    {
      assert MarkedAt(u, b, b - i) <==> u.history[i];
    }
  }

  /** One window in any state, packets in any order within H: exactly then each is passed once. */
  lemma {:induction false} OnceExactly(cfg: Config, w: Window, start: nat, ns: seq<nat>)
    requires 1 <= |w.history| == cfg.historyLength < SEQ_SPACE / 4
    requires ns != [] ==> start <= ns[0] && Reordered(cfg.historyLength, start, ns[0], ns[1..])
    ensures OnceIn(cfg, w, start, {}, ns) <==> Undisturbed(cfg, w, start, ns)
  {
    if ns != [] {
      var a, v := ns[0], MaybeReset(cfg, w, ns[0] % SEQ_SPACE, Flagged(start, ns[0]));
      if Accepts(v, a % SEQ_SPACE) {
        LetIn(v, a);
        OnceFrom(cfg, NextWindow(v, a % SEQ_SPACE), start, a, ns[1..]);
        assert {} + {a as int} == {a as int};
      }
    }
  }

  lemma {:induction false} OnceFrom(cfg: Config, u: Window, start: nat, a: nat, rest: seq<nat>)
    requires 1 <= |u.history| == cfg.historyLength < SEQ_SPACE / 4 && Reordered(cfg.historyLength, start, a, rest)
    requires var b := StandsAt(u, a);
             !u.takeAny && a <= b < a + |u.history| && (b - u.recvSeq) % SEQ_SPACE == 0 && u.history[b - a]
    ensures OnceIn(cfg, u, start, {a}, rest) <==> AllFree(u, StandsAt(u, a), a, rest)
  {
    BeginsSince(u, a, StandsAt(u, a));
    OnceRest(cfg, u, u, start, a, StandsAt(u, a), {a}, a, rest);
  }

  // ----- both windows -----

  function Inits(arrivals: seq<nat>): (ns: seq<nat>)
    decreases |arrivals|
  {
    if arrivals == [] then []
    else if arrivals[0] < SEQ_SPACE then [arrivals[0]] + Inits(arrivals[1..]) else Inits(arrivals[1..])
  }

  function RegularsOf(arrivals: seq<nat>): (ns: seq<nat>)
    decreases |arrivals|
  {
    if arrivals == [] then []
    else if arrivals[0] >= SEQ_SPACE then [arrivals[0]] + RegularsOf(arrivals[1..]) else RegularsOf(arrivals[1..])
  }

  /** Initial packets in this band make the regular window take any packet. */
  predicate InBand(cfg: Config, n: int) { SEQ_SPACE - 3 * cfg.historyLength <= n < SEQ_SPACE - cfg.historyLength }

  predicate ReachesBand(cfg: Config, arrivals: seq<nat>)
    decreases |arrivals|
  {
    arrivals != [] && (InBand(cfg, arrivals[0]) || ReachesBand(cfg, arrivals[1..]))
  }

  function Prepared(cfg: Config, w: Window, arrivals: seq<nat>): Window {
    if ReachesBand(cfg, arrivals) then w.(takeAny := true) else w
  }

  lemma {:induction false} NoBandLater(cfg: Config, start: nat, newest: int, arrivals: seq<nat>)
    requires Reordered(cfg.historyLength, start, newest, arrivals) && newest >= SEQ_SPACE
    ensures !ReachesBand(cfg, arrivals)
    decreases |arrivals|
  {
    if arrivals != [] { NoBandLater(cfg, start, Max(newest, arrivals[0]), arrivals[1..]); }
  }

  lemma {:induction false} Parts(seen: set<int>, n: nat)
    ensures n < SEQ_SPACE ==>
              InitPart(seen + {n}) == InitPart(seen) + {n} && RegularPart(seen + {n}) == RegularPart(seen)
    ensures n >= SEQ_SPACE ==>
              InitPart(seen + {n}) == InitPart(seen) && RegularPart(seen + {n}) == RegularPart(seen) + {n}
  {
  }

  ghost predicate OnceInBoth(cfg: Config, s: State, start: nat, seen: set<int>, arrivals: seq<nat>)
    requires ValidState(cfg, s)
  {
    OnceIn(cfg, s.init, start, InitPart(seen), Inits(arrivals)) &&
    OnceIn(cfg, Prepared(cfg, s.reg, arrivals), start, RegularPart(seen), RegularsOf(arrivals))
  }

  /** The two windows decide independently, once the band has been reached or not. */
  lemma {:induction false} TwoWindows(cfg: Config, s: State, start: nat, seen: set<int>, newest: int,
                                      arrivals: seq<nat>)
    requires Setting(cfg, start) && ValidState(cfg, s) && Reordered(cfg.historyLength, start, newest, arrivals)
    ensures ExactlyOnce(cfg, s, start, seen, arrivals) <==> OnceInBoth(cfg, s, start, seen, arrivals)
    decreases |arrivals|
  {
    if arrivals != [] {
      var n, rest := arrivals[0], arrivals[1..];
      TwoWindows(cfg, SeamlessArrive(cfg, s, WordOf(start, n)).0, start, seen + {n}, Max(newest, n), rest);
      if n < SEQ_SPACE { InitFactor(cfg, s, start, seen, n, rest); } else {
        NoBandLater(cfg, start, Max(newest, n), rest);
        RegularFactor(cfg, s, start, seen, n, rest);
      }
      assert [n] + rest == arrivals;
    }
  }

  lemma {:induction false} InitFactor(cfg: Config, s: State, start: nat, seen: set<int>, n: nat, rest: seq<nat>)
    requires Setting(cfg, start) && ValidState(cfg, s) && start <= n < SEQ_SPACE
    ensures var (t, pass) := SeamlessArrive(cfg, s, WordOf(start, n));
            OnceInBoth(cfg, s, start, seen, [n] + rest) <==>
            (pass <==> n !in seen) && OnceInBoth(cfg, t, start, seen + {n}, rest)
  {
    InitArrival(cfg, s, start, n);
    Parts(seen, n);
    assert ([n] + rest)[1..] == rest;
    assert ([n] + Inits(rest))[1..] == Inits(rest);
  }

  lemma {:induction false} RegularFactor(cfg: Config, s: State, start: nat, seen: set<int>, n: nat, rest: seq<nat>)
    requires Setting(cfg, start) && ValidState(cfg, s) && start <= n && SEQ_SPACE <= n && !ReachesBand(cfg, rest)
    ensures var (t, pass) := SeamlessArrive(cfg, s, WordOf(start, n));
            OnceInBoth(cfg, s, start, seen, [n] + rest) <==>
            (pass <==> n !in seen) && OnceInBoth(cfg, t, start, seen + {n}, rest)
  {
    RegularArrival(cfg, s, start, n);
    Parts(seen, n);
    assert ([n] + rest)[1..] == rest;
    assert ([n] + RegularsOf(rest))[1..] == RegularsOf(rest);
  }

  // ----- each window sees its packets in an order within H -----

  /** `local` is the newest initial packet. */
  lemma {:induction false} InitsReordered(H: nat, start: nat, newest: int, local: int, arrivals: seq<nat>)
    requires H >= 1 && Reordered(H, start, newest, arrivals)
    requires if newest < SEQ_SPACE then local == newest else SEQ_SPACE - H <= local < SEQ_SPACE
    ensures Reordered(H, start, local, Inits(arrivals))
    decreases |arrivals|
  {
    if arrivals != [] {
      var n, rest := arrivals[0], arrivals[1..];
      if n < SEQ_SPACE {
        InitsReordered(H, start, Max(newest, n), Max(local, n), rest);
        assert ([n] + Inits(rest))[1..] == Inits(rest);
      } else {
        InitsReordered(H, start, Max(newest, n), local, rest);
      }
    }
  }

  lemma {:induction false} RegularsReordered(H: nat, start: nat, newest: int, arrivals: seq<nat>)
    requires H >= 1 && Reordered(H, start, newest, arrivals) && newest >= SEQ_SPACE
    ensures Reordered(H, start, newest, RegularsOf(arrivals))
    decreases |arrivals|
  {
    if arrivals != [] {
      var n, rest := arrivals[0], arrivals[1..];
      RegularsReordered(H, start, Max(newest, n), rest);
      if n >= SEQ_SPACE { assert ([n] + RegularsOf(rest))[1..] == RegularsOf(rest); }
    }
  }

  /** From its own first packet on. */
  predicate OwnOrder(H: nat, start: nat, ns: seq<nat>) {
    ns == [] || (start <= ns[0] && Reordered(H, start, ns[0], ns[1..]))
  }

  lemma {:induction false} RegularsOwnOrder(H: nat, start: nat, newest: int, arrivals: seq<nat>)
    requires H >= 1 && Reordered(H, start, newest, arrivals) && newest < SEQ_SPACE
    ensures OwnOrder(H, start, RegularsOf(arrivals))
    decreases |arrivals|
  {
    if arrivals != [] {
      var n, rest := arrivals[0], arrivals[1..];
      if n < SEQ_SPACE {
        RegularsOwnOrder(H, start, Max(newest, n), rest);
      } else {
        RegularsReordered(H, start, n, rest);
        assert ([n] + RegularsOf(rest))[1..] == RegularsOf(rest);
      }
    }
  }

  lemma {:induction false} InitsOwnOrder(H: nat, start: nat, newest: int, arrivals: seq<nat>)
    requires H >= 1 && Reordered(H, start, newest, arrivals) && newest >= SEQ_SPACE
    ensures OwnOrder(H, start, Inits(arrivals))
    decreases |arrivals|
  {
    if arrivals != [] {
      var n, rest := arrivals[0], arrivals[1..];
      if n >= SEQ_SPACE {
        InitsOwnOrder(H, start, Max(newest, n), rest);
      } else {
        InitsReordered(H, start, newest, n, rest);
        assert ([n] + Inits(rest))[1..] == Inits(rest);
      }
    }
  }

  lemma {:induction false} OwnOrders(H: nat, start: nat, first: nat, arrivals: seq<nat>)
    requires H >= 1 && start <= first && Reordered(H, start, first, arrivals)
    ensures OwnOrder(H, start, Inits([first] + arrivals)) && OwnOrder(H, start, RegularsOf([first] + arrivals))
  {
    assert ([first] + arrivals)[1..] == arrivals;
    if first < SEQ_SPACE {
      InitsReordered(H, start, first, first, arrivals);
      assert ([first] + Inits(arrivals))[1..] == Inits(arrivals);
      RegularsOwnOrder(H, start, first, arrivals);
    } else {
      RegularsReordered(H, start, first, arrivals);
      assert ([first] + RegularsOf(arrivals))[1..] == RegularsOf(arrivals);
      InitsOwnOrder(H, start, first, arrivals);
    }
  }

  /** From every state, for every start, every first arrival and every order within H after it, with losses and copies:
      each packet is passed exactly once if and only if neither window meets its packets with stale bits. */
  lemma {:induction false} AnyOrderExactly(cfg: Config, s: State, start: nat, first: nat, arrivals: seq<nat>)
    requires Setting(cfg, start) && cfg.historyLength < SEQ_SPACE / 4 && ValidState(cfg, s) && start <= first
    requires Reordered(cfg.historyLength, start, first, arrivals)
    ensures var all := [first] + arrivals;
            ExactlyOnce(cfg, s, start, {}, all) <==>
            Undisturbed(cfg, s.init, start, Inits(all)) &&
            Undisturbed(cfg, Prepared(cfg, s.reg, all), start, RegularsOf(all))
  {
    var all := [first] + arrivals;
    assert all[1..] == arrivals;
    assert Reordered(cfg.historyLength, start, first, all);
    TwoWindows(cfg, s, start, {}, first, all);
    OwnOrders(cfg.historyLength, start, first, arrivals);
    assert InitPart({}) == {} && RegularPart({}) == {};
    OnceExactly(cfg, s.init, start, Inits(all));
    OnceExactly(cfg, Prepared(cfg, s.reg, all), start, RegularsOf(all));
  }

  // ----- a second reset of the generator -----

  /** The recovery after these packets. */
  function StateAfter(cfg: Config, s: State, start: nat, arrivals: seq<nat>): (t: State)
    requires ValidState(cfg, s)
    ensures ValidState(cfg, t)
    decreases |arrivals|
  {
    if arrivals == [] || arrivals[0] < start then s
    else StateAfter(cfg, SeamlessArrive(cfg, s, WordOf(start, arrivals[0])).0, start, arrivals[1..])
  }

  lemma {:induction false} AfterOne(cfg: Config, s: State, start: nat, n: nat, count: nat)
    requires ValidState(cfg, s) && start <= n && count > 0
    ensures StateAfter(cfg, s, start, Consecutive(n, count)) ==
            StateAfter(cfg, SeamlessArrive(cfg, s, WordOf(start, n)).0, start, Consecutive(n + 1, count - 1))
  {
    assert Consecutive(n, count)[1..] == Consecutive(n + 1, count - 1);
  }

  lemma {:induction false} StandsNext(cfg: Config, s: State, start: nat, n: nat)
    requires Setting(cfg, start) && ValidState(cfg, s) && start < n < SEQ_SPACE
    requires !s.init.takeAny && s.init.recvSeq == n - 1
    ensures var t := SeamlessArrive(cfg, s, WordOf(start, n)).0; !t.init.takeAny && t.init.recvSeq == n
  {
    InitArrival(cfg, s, start, n);
    CalcDeltaIsDistance(n, n - 1, n, n - 1);
  }

  lemma {:induction false} StandsFirst(cfg: Config, s: State, start: nat)
    requires Setting(cfg, start) && ValidState(cfg, s) && Taken(cfg, s.init, start, Flagged(start, start))
    ensures var t := SeamlessArrive(cfg, s, WordOf(start, start)).0; !t.init.takeAny && t.init.recvSeq == start
  {
    InitArrival(cfg, s, start, start);
  }

  lemma {:induction false} StandsInOrder(cfg: Config, s: State, start: nat, n: nat, count: nat)
    requires Setting(cfg, start) && ValidState(cfg, s) && start < n && n + count <= SEQ_SPACE
    requires !s.init.takeAny && s.init.recvSeq == n - 1
    ensures var t := StateAfter(cfg, s, start, Consecutive(n, count));
            !t.init.takeAny && t.init.recvSeq == n + count - 1
    decreases count
  {
    if count > 0 {
      StandsNext(cfg, s, start, n);
      AfterOne(cfg, s, start, n, count);
      StandsInOrder(cfg, SeamlessArrive(cfg, s, WordOf(start, n)).0, start, n + 1, count - 1);
    }
  }

  lemma {:induction false} MarkedInOrder(cfg: Config, s: State, start: nat, n: nat, count: nat)
    requires ValidState(cfg, s) && start <= n && Marked(s.init) && Marked(s.reg)
    ensures var t := StateAfter(cfg, s, start, Consecutive(n, count)); Marked(t.init) && Marked(t.reg)
    decreases count
  {
    if count > 0 {
      MarkedIsKept(cfg, s, WordOf(start, n));
      AfterOne(cfg, s, start, n, count);
      MarkedInOrder(cfg, SeamlessArrive(cfg, s, WordOf(start, n)).0, start, n + 1, count - 1);
    }
  }

  /** After the first k packets in order the initial window stands at the last of them. */
  lemma {:induction false} StandsAtLast(cfg: Config, s: State, start: nat, k: nat)
    requires Setting(cfg, start) && ValidState(cfg, s) && Marked(s.init) && Marked(s.reg)
    requires ReadyFor(cfg, s, start, start) && 1 <= k && start + k <= SEQ_SPACE - cfg.historyLength
    ensures var t := StateAfter(cfg, s, start, Consecutive(start, k));
            Marked(t.init) && Marked(t.reg) && !t.init.takeAny && t.init.recvSeq == start + k - 1
  {
    MarkedInOrder(cfg, s, start, start, k);
    StandsFirst(cfg, s, start);
    AfterOne(cfg, s, start, start, k);
    StandsInOrder(cfg, SeamlessArrive(cfg, s, WordOf(start, start)).0, start, start + 1, k - 1);
  }

  /** Flagged packet start + j after k packets of the epoch before: ahead of the window, or at least 2H behind. */
  lemma {:induction false} ReadyAgain(cfg: Config, t: State, start: nat, k: nat, j: nat)
    requires Setting(cfg, start) && cfg.historyLength < SEQ_SPACE / 4 && ValidState(cfg, t) && !t.init.takeAny
    requires 1 <= k && start + k <= SEQ_SPACE - cfg.historyLength && t.init.recvSeq == start + k - 1
    requires j <= 2 && start + j < SEQ_SPACE - cfg.historyLength && start < SEQ_SPACE - 3
    ensures ReadyFor(cfg, t, start, start + j) <==> k <= j || k >= 2 * cfg.historyLength + 1 + j
  {
    var d := j + 1 - k;
    CalcDeltaIsDistance(start + j + (if d < -SEQ_SPACE / 2 then SEQ_SPACE else 0), start + k - 1, start + j,
                        start + k - 1);
  }

  /** Whatever is lost or late after the first arrival, each packet is passed exactly once. */
  ghost predicate Works(cfg: Config, s: State, start: nat, first: nat)
    requires ValidState(cfg, s)
  {
    forall arrivals :: Schedule(cfg.historyLength, start, {first}, first, arrivals) ==>
      ExactlyOnce(cfg, s, start, {}, [first] + arrivals)
  }

  /** The generator is reset again after k packets that came in order: whatever is lost or late from then on, the reset
      works if and only if the first new packet, start + j, was not sent yet or lies at least 2H behind. */
  lemma {:induction false} SecondReset(cfg: Config, s: State, start: nat, k: nat, j: nat)
    requires Setting(cfg, start) && cfg.historyLength < SEQ_SPACE / 4 && ValidState(cfg, s)
    requires Marked(s.init) && Marked(s.reg) && ReadyFor(cfg, s, start, start)
    requires 1 <= k && start + k <= SEQ_SPACE - cfg.historyLength
    requires j <= 2 && start + j < SEQ_SPACE - cfg.historyLength && start < SEQ_SPACE - 3
    ensures Works(cfg, StateAfter(cfg, s, start, Consecutive(start, k)), start, start + j) <==>
            k <= j || k >= 2 * cfg.historyLength + 1 + j
  {
    StandsAtLast(cfg, s, start, k);
    WorksAgain(cfg, StateAfter(cfg, s, start, Consecutive(start, k)), start, k, j);
  }

  lemma {:induction false} WorksAgain(cfg: Config, t: State, start: nat, k: nat, j: nat)
    requires Setting(cfg, start) && cfg.historyLength < SEQ_SPACE / 4 && ValidState(cfg, t) && !t.init.takeAny
    requires 1 <= k && start + k <= SEQ_SPACE - cfg.historyLength && t.init.recvSeq == start + k - 1
    requires j <= 2 && start + j < SEQ_SPACE - cfg.historyLength && start < SEQ_SPACE - 3
    requires Marked(t.init) && Marked(t.reg)
    ensures Works(cfg, t, start, start + j) <==> k <= j || k >= 2 * cfg.historyLength + 1 + j
  {
    ReadyAgain(cfg, t, start, k, j);
    SeamlessExactlyWhenReady(cfg, t, start, start + j);
  }

  // ----- late copies of what was sent before the reset -----

  /** New packets by absolute number, and copies of regular packets that were sent before the reset. */
  datatype Arrival = New(n: nat) | Old(word: nat)

  /** The regular window shows the number of the copy, less than H behind its own. */
  predicate CopyOf(w: Window, word: nat) {
    var delta := CalcDelta(word % SEQ_SPACE, w.recvSeq);
    !HasInit(word) && -|w.history| < delta <= 0 && w.history[-delta]
  }

  function NewOnes(evs: seq<Arrival>): (ns: seq<nat>)
    decreases |evs|
  {
    if evs == [] then [] else (if evs[0].New? then [evs[0].n] else []) + NewOnes(evs[1..])
  }

  /** Each new packet is passed exactly once, each old copy is refused. */
  predicate OldRefused(cfg: Config, s: State, start: nat, seen: set<int>, evs: seq<Arrival>)
    requires ValidState(cfg, s)
    decreases |evs|
  {
    evs == [] ||
    match evs[0]
    case New(n) =>
      start <= n &&
      var (t, pass) := SeamlessArrive(cfg, s, WordOf(start, n));
      (pass <==> n !in seen) && OldRefused(cfg, t, start, seen + {n}, evs[1..])
    case Old(word) =>
      var (t, pass) := SeamlessArrive(cfg, s, word);
      !pass && OldRefused(cfg, t, start, seen, evs[1..])
  }

  /** No old copy comes behind a packet of the band. */
  predicate OldBeforeBand(cfg: Config, takeAny: bool, evs: seq<Arrival>)
    decreases |evs|
  {
    evs == [] ||
    match evs[0]
    case New(n) => OldBeforeBand(cfg, takeAny || InBand(cfg, n), evs[1..])
    case Old(_) => !takeAny && OldBeforeBand(cfg, takeAny, evs[1..])
  }

  /** Initial packets of the new epoch, mixed with such copies. */
  predicate Mixed(w: Window, start: nat, evs: seq<Arrival>) {
    forall k :: 0 <= k < |evs| ==>
      if evs[k].New? then start <= evs[k].n < SEQ_SPACE else CopyOf(w, evs[k].word)
  }

  lemma {:induction false} CopyArrives(cfg: Config, s: State, word: nat)
    requires ValidState(cfg, s) && CopyOf(s.reg, word)
    ensures var (t, pass) := SeamlessArrive(cfg, s, word);
            pass == s.reg.takeAny && (!pass ==> t.reg == s.reg && t.init == s.init)
  {
    var delta := CalcDelta(word % SEQ_SPACE, s.reg.recvSeq);
    assert s.reg.history[-delta := true] == s.reg.history;
  }

  /** Counters do not decide. */
  lemma {:induction false} SameWindows(cfg: Config, s: State, t: State, start: nat, seen: set<int>, arrivals: seq<nat>)
    requires ValidState(cfg, s) && ValidState(cfg, t) && s.reg == t.reg && s.init == t.init
    ensures ExactlyOnce(cfg, s, start, seen, arrivals) <==> ExactlyOnce(cfg, t, start, seen, arrivals)
    decreases |arrivals|
  {
    if arrivals != [] && start <= arrivals[0] {
      SameWindows(cfg, SeamlessArrive(cfg, s, WordOf(start, arrivals[0])).0,
                  SeamlessArrive(cfg, t, WordOf(start, arrivals[0])).0, start, seen + {arrivals[0]}, arrivals[1..]);
    }
  }

  /** Late copies of packets sent before the reset, in between the new packets: they are refused and change nothing if
      and only if none of them comes behind a packet of the band that makes the regular window take any packet. */
  lemma {:induction false} OldCopiesExactly(cfg: Config, s: State, start: nat, seen: set<int>, evs: seq<Arrival>)
    requires Setting(cfg, start) && ValidState(cfg, s) && Mixed(s.reg, start, evs)
    ensures OldRefused(cfg, s, start, seen, evs) <==>
            ExactlyOnce(cfg, s, start, seen, NewOnes(evs)) && OldBeforeBand(cfg, s.reg.takeAny, evs)
    decreases |evs|
  {
    if evs != [] {
      match evs[0]
      case New(n) =>
        InitArrival(cfg, s, start, n);
        OldCopiesExactly(cfg, SeamlessArrive(cfg, s, WordOf(start, n)).0, start, seen + {n}, evs[1..]);
        assert ([n] + NewOnes(evs[1..]))[1..] == NewOnes(evs[1..]);
      case Old(word) =>
        CopyArrives(cfg, s, word);
        if !s.reg.takeAny {
          var t := SeamlessArrive(cfg, s, word).0;
          OldCopiesExactly(cfg, t, start, seen, evs[1..]);
          SameWindows(cfg, s, t, start, seen, NewOnes(evs[1..]));
          assert [] + NewOnes(evs[1..]) == NewOnes(evs[1..]);
        }
    }
  }

  // ----- without the initial number space -----

  /** Output n of a generator that only flags its first packets. */
  function FlaggedWord(n: nat): nat { WordAt(GenConfig(true, false, 0), n) }

  predicate OnceFlagged(cfg: Config, s: State, seen: set<int>, arrivals: seq<nat>)
    requires ValidState(cfg, s)
    decreases |arrivals|
  {
    arrivals == [] ||
    var n := arrivals[0];
    var (t, pass) := SeamlessArrive(cfg, s, FlaggedWord(n));
    (pass <==> n !in seen) && OnceFlagged(cfg, t, seen + {n}, arrivals[1..])
  }

  lemma {:induction false} FlaggedArrival(cfg: Config, s: State, n: nat)
    requires cfg.useResetFlag && !cfg.useInitFlag && ValidState(cfg, s)
    ensures var (t, pass) := SeamlessArrive(cfg, s, FlaggedWord(n));
            var v := MaybeReset(cfg, s.reg, n % SEQ_SPACE, Flagged(0, n));
            pass == Accepts(v, n % SEQ_SPACE) && t.reg == NextWindow(v, n % SEQ_SPACE)
  {
  }

  lemma {:induction false} OneWindow(cfg: Config, s: State, seen: set<int>, arrivals: seq<nat>)
    requires cfg.useResetFlag && !cfg.useInitFlag && ValidState(cfg, s)
    ensures OnceFlagged(cfg, s, seen, arrivals) <==> OnceIn(cfg, s.reg, 0, seen, arrivals)
    decreases |arrivals|
  {
    if arrivals != [] {
      FlaggedArrival(cfg, s, arrivals[0]);
      OneWindow(cfg, SeamlessArrive(cfg, s, FlaggedWord(arrivals[0])).0, seen + {arrivals[0]}, arrivals[1..]);
    }
  }

  /** With the reset flag alone: from every state, every first arrival and every order within H after it, each packet
      is passed exactly once if and only if the one window meets its packets without stale bits. */
  lemma {:induction false} FlagOnlyExactly(cfg: Config, s: State, first: nat, arrivals: seq<nat>)
    requires cfg.useResetFlag && !cfg.useInitFlag && ValidState(cfg, s) && cfg.historyLength < SEQ_SPACE / 4
    requires Reordered(cfg.historyLength, 0, first, arrivals)
    ensures OnceFlagged(cfg, s, {}, [first] + arrivals) <==> Undisturbed(cfg, s.reg, 0, [first] + arrivals)
  {
    assert ([first] + arrivals)[1..] == arrivals;
    OneWindow(cfg, s, {}, [first] + arrivals);
    OnceExactly(cfg, s.reg, 0, [first] + arrivals);
  }

  /** Without the reset flag the algorithm is the vector algorithm, whatever flags a word carries. */
  lemma {:induction false} PlainWithoutFlag(cfg: Config, s: State, word: nat)
    requires !cfg.useResetFlag && ValidState(cfg, s)
    ensures var (t, pass) := SeamlessArrive(cfg, s, word);
            Outcome(t.reg, t.counters, pass) == Recover(cfg, s.reg, s.counters, word % SEQ_SPACE) && t.init == s.init
  {
  }

  // ----- after the timer's reset -----

  /** Both windows are cleared, so every start and every order within H works again. */
  lemma {:induction false} WorksAfterTimer(cfg: Config, s: State, start: nat, arrivals: seq<nat>)
    requires Setting(cfg, start) && ValidState(cfg, s) && Reordered(cfg.historyLength, start, start - 1, arrivals)
    ensures var t := State(Forgotten(s.reg, SeamlessAlgorithm), ForgottenInit(s.init, SeamlessAlgorithm), s.counters);
            ExactlyOnce(cfg, t, start, {}, arrivals)
  {
    var t := State(Forgotten(s.reg, SeamlessAlgorithm), ForgottenInit(s.init, SeamlessAlgorithm), s.counters);
    ReorderedRun(cfg, t, start, arrivals);
  }
}
