/** What vector recovery keeps over every run of packets, ticks and latent-error resets.
    Absolute (unbounded) sequence numbers and the set of accepted ones are ghost companions
    of the 16-bit window; a timer reset starts a new epoch. */
module VectorRuns {
  import opened SeqRecovery

  datatype Event = Packet(word: nat) | Tick | LatentReset

  /** epoch: resets so far; base: absolute number of the window base; accepted: in this epoch. */
  datatype Track = Track(epoch: nat, base: int, accepted: set<int>)

  /** What one arriving packet looked like in absolute numbers, with the base it met. */
  datatype Entry = Entry(epoch: nat, number: int, base: int, accepted: bool)

  datatype Run = Run(window: Window, counters: Counters, track: Track, log: seq<Entry>)

  function Absolute(w: Window, t: Track, num: nat): int {
    if w.takeAny then num else t.base + CalcDelta(num, w.recvSeq)
  }

  /** The base the packet is compared with; a window that takes any packet starts there. */
  function Met(w: Window, t: Track, num: nat): int {
    if w.takeAny then num else t.base
  }

  /** The ghost numbers after a packet. */
  function Tracked(w: Window, t: Track, num: nat): (u: Track) {
    var n, met := Absolute(w, t, num), Met(w, t, num);
    if Accepts(w, num) then Track(t.epoch, if n > met then n else met, t.accepted + {n}) else t
  }

  /** One atomic step of the code (a packet, the timer tick, the latent-error reset) with its ghost companions. */
  function Step(cfg: Config, r: Run, e: Event): (s: Run)
    requires |r.window.history| == cfg.historyLength >= 1
    ensures |s.window.history| == cfg.historyLength
  {
    match e
    case Packet(word) =>
      var num := word % SEQ_SPACE;
      var o := Recover(cfg, r.window, r.counters, num);
      Run(o.window, o.counters, Tracked(r.window, r.track, num),
          r.log + [Entry(r.track.epoch, Absolute(r.window, r.track, num), Met(r.window, r.track, num), o.accept)])
    case Tick =>
      if r.counters.ticks == 1 then
        Run(Forgotten(r.window, VectorAlgorithm), Ticked(r.counters), Track(r.track.epoch + 1, 0, {}), r.log)
      else r.(counters := Ticked(r.counters))
    case LatentReset => r.(counters := r.counters.(guard := cfg.historyLength - 1))
  }

  function Start(cfg: Config): (r: Run) {
    Run(Window(0, true, Zeros(cfg.historyLength)), Counters(0, 0, 0, 0, 0, 0, 0, 0, cfg.resetTicks),
        Track(0, 0, {}), [])
  }

  function Runs(cfg: Config, events: seq<Event>): (r: Run)
    requires cfg.historyLength >= 1
    ensures |r.window.history| == cfg.historyLength
  {
    if events == [] then Start(cfg)
    else Step(cfg, Runs(cfg, events[..|events| - 1]), events[|events| - 1])
  }

  /** The object itself, driven by these events, does what the runs here say. */
  method Drive(cfg: Config, paths: int, events: seq<Event>) returns (rec: SequenceRecovery, passed: seq<bool>)
    requires cfg.historyLength >= 1
    ensures fresh(rec) && rec.Valid()
    ensures rec.Regular() == Runs(cfg, events).window && rec.counters == Runs(cfg, events).counters
    ensures |passed| == |Runs(cfg, events).log|
    ensures forall k :: 0 <= k < |passed| ==> passed[k] == Runs(cfg, events).log[k].accepted
  {
    rec := new SequenceRecovery(cfg, paths);
    passed := [];
    for i := 0 to |events|
      invariant fresh(rec) && rec.Valid() && rec.cfg == cfg && fresh(rec.history) && fresh(rec.initHistory)
      invariant rec.Regular() == Runs(cfg, events[..i]).window && rec.counters == Runs(cfg, events[..i]).counters
      invariant |passed| == |Runs(cfg, events[..i]).log|
      invariant forall k :: 0 <= k < |passed| ==> passed[k] == Runs(cfg, events[..i]).log[k].accepted
    {
      assert events[..i + 1][..i] == events[..i];
      match events[i]
      case Packet(word) =>
        var accept := rec.VectorSeqRecovery(word);
        passed := passed + [accept];
      case Tick => var ended := rec.Tick(VectorAlgorithm, false);
      case LatentReset => rec.LatentErrorReset();
    }
    assert events[..|events|] == events;
  }

  // ----- the window shows exactly the accepted numbers -----

  /** history[i] is set exactly when base - i was accepted, and nothing above the base was. */
  ghost predicate Represents(w: Window, t: Track) {
    if w.takeAny then t.accepted == {} && forall i :: 0 <= i < |w.history| ==> !w.history[i]
    else
      (t.base - w.recvSeq) % SEQ_SPACE == 0 &&
      (forall n :: n in t.accepted ==> n <= t.base) &&
      forall i :: 0 <= i < |w.history| ==> (w.history[i] <==> t.base - i in t.accepted)
  }

  /** Packets are judged exactly: passed when inside the window and new, refused otherwise. */
  lemma {:induction false} WindowStep(w: Window, t: Track, num: nat)
    requires |w.history| >= 1 && Represents(w, t)
    ensures var n, met := Absolute(w, t, num), Met(w, t, num);
            Accepts(w, num) <==> met - |w.history| < n <= met + |w.history| && n !in t.accepted
    ensures Represents(NextWindow(w, num), Tracked(w, t, num))
  {
    var delta := CalcDelta(num, w.recvSeq);
    var v, u := NextWindow(w, num), Tracked(w, t, num);
    if w.takeAny {
      assert u.accepted == {num};
    } else if 0 < delta <= |w.history| {
      forall i | 0 <= i < |w.history|
        ensures v.history[i] <==> u.base - i in u.accepted
      {
        AdvancedAt(w.history, delta, i);
      }
    }
  }

  lemma {:induction false} HistoryIsExact(cfg: Config, events: seq<Event>)
    requires cfg.historyLength >= 1
    ensures var r := Runs(cfg, events); Represents(r.window, r.track)
  {
    if events != [] {
      var before := Runs(cfg, events[..|events| - 1]);
      HistoryIsExact(cfg, events[..|events| - 1]);
      match events[|events| - 1] {
        case Packet(word) => WindowStep(before.window, before.track, word % SEQ_SPACE);
        case Tick =>
        case LatentReset =>
      }
    }
  }

  /** A reset forgets everything: no number counts as accepted. */
  lemma {:induction false} ResetForgets(w: Window, algorithm: Algorithm, epoch: nat)
    requires !algorithm.MatchAlgorithm?
    ensures Represents(Forgotten(w, algorithm), Track(epoch, 0, {}))
    ensures algorithm.SeamlessAlgorithm? ==> Represents(ForgottenInit(w, algorithm), Track(epoch, 0, {}))
  {
  }

  // ----- the timer -----

  /** Ticks since the timer was last started: at the beginning, by a passed packet, and by any packet when set so. */
  function Silence(cfg: Config, events: seq<Event>): nat
    requires cfg.historyLength >= 1
  {
    if events == [] then 0 else
    var before := events[..|events| - 1];
    match events[|events| - 1]
    case Packet(word) =>
      if cfg.individual || Accepts(Runs(cfg, before).window, word % SEQ_SPACE) then 0 else Silence(cfg, before)
    case Tick => Silence(cfg, before) + 1
    case LatentReset => Silence(cfg, before)
  }

  /** Over every run the timer shows what is left, and the recovery is reset by exactly the tick that completes the
      silence. */
  lemma {:induction false} TimerExact(cfg: Config, events: seq<Event>)
    requires cfg.historyLength >= 1
    ensures Runs(cfg, events).counters.ticks ==
            if Silence(cfg, events) < cfg.resetTicks then cfg.resetTicks - Silence(cfg, events) else 0
    ensures events != [] ==>
              Runs(cfg, events).track.epoch == Runs(cfg, events[..|events| - 1]).track.epoch +
                (if events[|events| - 1].Tick? && Silence(cfg, events) == cfg.resetTicks then 1 else 0)
  {
    if events != [] {
      var before := events[..|events| - 1];
      TimerExact(cfg, before);
      if events[|events| - 1].Packet? {
        TimerOfPacket(cfg, Runs(cfg, before).window, Runs(cfg, before).counters, events[|events| - 1].word % SEQ_SPACE);
      }
    }
  }

  lemma {:induction false} TimerOfPacket(cfg: Config, w: Window, c: Counters, num: nat)
    requires |w.history| >= 1
    ensures NextCounters(cfg, w, c, num).ticks == if cfg.individual || Accepts(w, num) then cfg.resetTicks else c.ticks
  {
    var delta := CalcDelta(num, w.recvSeq);
    if !w.takeAny && 0 < delta <= |w.history| {
      LossKeepsTimer(if delta == 1 then c else c.(outOfOrder := c.outOfOrder + 1), w.history, delta);
    }
  }

  lemma {:induction false} LossKeepsTimer(c: Counters, h: seq<bool>, k: nat)
    requires |h| >= 1
    ensures var d := AccountLoss(c, h, k);
            d.ticks == c.ticks && d.rogue == c.rogue && d.outOfOrder == c.outOfOrder
  {
    if k > 0 { LossKeepsTimer(c, h, k - 1); }
  }

  /** While packets pass in time there is no reset. */
  lemma {:induction false} NoResetInTime(cfg: Config, events: seq<Event>)
    requires cfg.historyLength >= 1
    requires forall n :: 0 <= n <= |events| ==> Silence(cfg, events[..n]) != cfg.resetTicks || n == 0
    ensures Runs(cfg, events).track.epoch == 0
  {
    if events != [] {
      var before := events[..|events| - 1];
      forall n | 0 <= n <= |before|
        ensures Silence(cfg, before[..n]) != cfg.resetTicks || n == 0
      {
        assert before[..n] == events[..n];
      }
      NoResetInTime(cfg, before);
      TimerExact(cfg, events);
      assert events[..|events|] == events;
    }
  }

  // ----- the other counters -----

  predicate Rogue(H: nat, e: Entry) { !e.accepted && !(e.base - H < e.number <= e.base + H) }

  predicate OutOfOrder(e: Entry) { e.accepted && e.number != e.base && e.number != e.base + 1 }

  function Rogues(H: nat, log: seq<Entry>): nat {
    if log == [] then 0 else Rogues(H, log[..|log| - 1]) + (if Rogue(H, log[|log| - 1]) then 1 else 0)
  }

  function OutOfOrders(log: seq<Entry>): nat {
    if log == [] then 0 else OutOfOrders(log[..|log| - 1]) + (if OutOfOrder(log[|log| - 1]) then 1 else 0)
  }

  lemma {:induction false} OwnNumberMarked(cfg: Config, events: seq<Event>)
    requires cfg.historyLength >= 1
    ensures var w := Runs(cfg, events).window; w.takeAny || w.history[0]
  {
    if events != [] {
      var before := events[..|events| - 1];
      OwnNumberMarked(cfg, before);
      if events[|events| - 1].Packet? {
        var w := Runs(cfg, before).window;
        var delta := CalcDelta(events[|events| - 1].word % SEQ_SPACE, w.recvSeq);
        if !w.takeAny && 0 < delta <= |w.history| { AdvancedAt(w.history, delta, 0); }
      }
    }
  }

  lemma {:induction false} OneCounted(cfg: Config, w: Window, t: Track, c: Counters, num: nat)
    requires |w.history| == cfg.historyLength >= 1 && Represents(w, t) && (w.takeAny || w.history[0])
    ensures var d := NextCounters(cfg, w, c, num);
            var e := Entry(t.epoch, Absolute(w, t, num), Met(w, t, num), Accepts(w, num));
            d.rogue == c.rogue + (if Rogue(cfg.historyLength, e) then 1 else 0) &&
            d.outOfOrder == c.outOfOrder + (if OutOfOrder(e) then 1 else 0)
  {
    var delta := CalcDelta(num, w.recvSeq);
    if !w.takeAny && 0 < delta <= |w.history| {
      LossKeepsTimer(if delta == 1 then c else c.(outOfOrder := c.outOfOrder + 1), w.history, delta);
    }
  }

  /** Over every run: packets outside the window are the rogue ones, passed packets other than the next expected one
      came out of order. */
  lemma {:induction false} OddPacketsCounted(cfg: Config, events: seq<Event>)
    requires cfg.historyLength >= 1
    ensures var r := Runs(cfg, events);
            r.counters.rogue == Rogues(cfg.historyLength, r.log) && r.counters.outOfOrder == OutOfOrders(r.log)
  {
    if events != [] {
      var before, last := events[..|events| - 1], events[|events| - 1];
      var r := Runs(cfg, before);
      OddPacketsCounted(cfg, before);
      HistoryIsExact(cfg, before);
      OwnNumberMarked(cfg, before);
      if last.Packet? {
        OneCounted(cfg, r.window, r.track, r.counters, last.word % SEQ_SPACE);
        assert Runs(cfg, events).log[..|r.log|] == r.log;
      }
    }
  }

  /** The bits that leave the history when it moves on by k, in order. */
  function Leaving(h: seq<bool>, k: nat): (bits: seq<bool>)
    requires |h| >= 1
    ensures |bits| == k
  {
    if k == 0 then [] else Leaving(h, k - 1) + [ShiftedZeros(h, k - 1)[|h| - 1]]
  }

  function Charged(c: Counters, bits: seq<bool>): Counters {
    if bits == [] then c else AccountShift(Charged(c, bits[..|bits| - 1]), bits[|bits| - 1])
  }

  lemma {:induction false} LossIsCharged(c: Counters, h: seq<bool>, k: nat)
    requires |h| >= 1
    ensures AccountLoss(c, h, k) == Charged(c, Leaving(h, k))
  {
    if k > 0 {
      LossIsCharged(c, h, k - 1);
      assert Leaving(h, k)[..k - 1] == Leaving(h, k - 1);
    }
  }

  /** After a latent-error reset as many losses as the guard allows are not counted, and all further ones are. */
  lemma {:induction false} GuardAbsorbs(c: Counters, bits: seq<bool>)
    ensures var d, zeros := Charged(c, bits), |bits| - Ones(bits);
            d.guard == (if zeros < c.guard then c.guard - zeros else 0) &&
            d.lost == c.lost + (if zeros < c.guard then 0 else zeros - c.guard)
  {
    if bits != [] { GuardAbsorbs(c, bits[..|bits| - 1]); }
  }

  /** Numbers i to j - 1 were all lost. */
  predicate LostRun(bits: seq<bool>, i: int, j: int) {
    0 <= i <= j <= |bits| && forall k :: i <= k < j ==> !bits[k]
  }

  /** Without a guard, the counters hold the run of losses at the end and the longest one. */
  lemma {:induction false} LongestLoss(c: Counters, bits: seq<bool>) returns (i: int, j: int)
    requires c.guard == 0 && c.consecutiveLoss == 0 == c.consecutiveLossMax
    ensures var d := Charged(c, bits);
            d.guard == 0 && LostRun(bits, |bits| - d.consecutiveLoss, |bits|) &&
            (d.consecutiveLoss < |bits| ==> bits[|bits| - 1 - d.consecutiveLoss]) &&
            LostRun(bits, i, j) && j - i == d.consecutiveLossMax &&
            forall a, b :: LostRun(bits, a, b) ==> b - a <= d.consecutiveLossMax
  {
    i, j := 0, 0;
    if bits != [] {
      var before := bits[..|bits| - 1];
      i, j := LongestLoss(c, before);
      var d := Charged(c, bits);
      if !bits[|bits| - 1] && d.consecutiveLoss == d.consecutiveLossMax {
        i, j := |bits| - d.consecutiveLoss, |bits|;
      }
      forall a, b | LostRun(bits, a, b)
        ensures b - a <= d.consecutiveLossMax
      {
        LongestStep(bits, a, b, Charged(c, before).consecutiveLoss);
        assert b < |bits| ==> LostRun(before, a, b);
        assert b == |bits| && a < b ==> LostRun(before, a, b - 1);
      }
    }
  }

  lemma {:induction false} LongestStep(bits: seq<bool>, a: int, b: int, trailing: nat)
    requires bits != [] && LostRun(bits, a, b) && trailing < |bits|
    requires trailing + 1 < |bits| ==> bits[|bits| - 2 - trailing]
    ensures b == |bits| && a < b ==> b - a <= trailing + 1
  {
    assert b == |bits| && b - a > trailing + 1 ==> a <= |bits| - 2 - trailing < b;
  }

  // ----- no number passes twice, and nothing new in the window is refused -----

  ghost predicate Earlier(log: seq<Entry>, j: int, epoch: nat, n: int) {
    exists i :: 0 <= i < j <= |log| && log[i].accepted && log[i].epoch == epoch && log[i].number == n
  }

  /** Two packets of one epoch that were both passed. */
  predicate BothPassed(log: seq<Entry>, i: int, j: int) {
    0 <= i < j < |log| && log[i].epoch == log[j].epoch && log[i].accepted && log[j].accepted
  }

  predicate Separated(H: nat, a: Entry, b: Entry) {
    a.number != b.number &&
    ((b.number - a.number) % SEQ_SPACE == 0 ==> b.base - a.base > SEQ_SPACE - 2 * H)
  }

  predicate RefusedInside(H: nat, e: Entry) {
    !e.accepted && e.base - H < e.number <= e.base + H
  }

  /** Over one run: no absolute number is passed twice in an epoch; a 16-bit number is passed again
      only after the base has moved on by more than the number space less two history lengths;
      a number inside the window is refused only if it was passed before in the epoch. */
  ghost predicate EliminatesDuplicates(H: nat, log: seq<Entry>) {
    (forall i, j :: BothPassed(log, i, j) ==> Separated(H, log[i], log[j])) &&
    (forall j :: 0 <= j < |log| && RefusedInside(H, log[j]) ==> Earlier(log, j, log[j].epoch, log[j].number))
  }

  /** The log agrees with the ghost numbers of the current epoch. */
  ghost predicate LogTracked(H: nat, blank: bool, t: Track, log: seq<Entry>) {
    (forall j :: 0 <= j < |log| ==> log[j].epoch <= t.epoch) &&
    (forall j :: 0 <= j < |log| && log[j].epoch == t.epoch ==> !blank && log[j].base <= t.base) &&
    (forall j :: 0 <= j < |log| && log[j].accepted ==> log[j].base - H < log[j].number) &&
    (forall j :: 0 <= j < |log| && log[j].accepted && log[j].epoch == t.epoch ==>
      log[j].number in t.accepted && log[j].number <= t.base) &&
    (forall n :: n in t.accepted ==> Earlier(log, |log|, t.epoch, n))
  }

  /** Appending a packet's entry, as far as `LogTracked` goes. */
  lemma {:induction false} LogGrows(H: nat, w: Window, t: Track, log: seq<Entry>, num: nat)
    requires |w.history| == H >= 1 && Represents(w, t) && LogTracked(H, w.takeAny, t, log)
    ensures LogTracked(H, false, Tracked(w, t, num),
                       log + [Entry(t.epoch, Absolute(w, t, num), Met(w, t, num), Accepts(w, num))])
  {
    WindowStep(w, t, num);
    var e := Entry(t.epoch, Absolute(w, t, num), Met(w, t, num), Accepts(w, num));
    forall n | n in Tracked(w, t, num).accepted
      ensures Earlier(log + [e], |log| + 1, t.epoch, n)
    {
      if n in t.accepted {
        EarlierGrows(log, |log|, e, t.epoch, n);
        var i :| 0 <= i < |log| && (log + [e])[i].accepted && (log + [e])[i].epoch == t.epoch &&
            (log + [e])[i].number == n;
      } else {
        assert (log + [e])[|log|].number == n;
      }
    }
  }

  lemma {:induction false} EarlierGrows(log: seq<Entry>, j: nat, e: Entry, epoch: nat, n: int)
    requires j <= |log|
    ensures Earlier(log, j, epoch, n) ==> Earlier(log + [e], j, epoch, n)
  {
    if Earlier(log, j, epoch, n) {
      var i :| 0 <= i < j && log[i].accepted && log[i].epoch == epoch && log[i].number == n;
      assert (log + [e])[i] == log[i];
    }
  }

  /** Appending an entry that was judged exactly keeps the log free of duplicates. */
  lemma {:induction false} EliminationGrows(H: nat, blank: bool, t: Track, log: seq<Entry>, e: Entry)
    requires LogTracked(H, blank, t, log) && EliminatesDuplicates(H, log)
    requires e.epoch == t.epoch && (!blank ==> e.base == t.base) && e.number >= e.base - SEQ_SPACE / 2
    requires e.accepted <==> e.base - H < e.number <= e.base + H && e.number !in t.accepted
    ensures EliminatesDuplicates(H, log + [e])
  {
    var next := log + [e];
    forall i, j | BothPassed(next, i, j)
      ensures Separated(H, next[i], next[j])
    {
      if j < |log| {
        assert BothPassed(log, i, j);
      } else {
        FarApart(e.number, next[i].number);
      }
    }
    forall j | 0 <= j < |next| && RefusedInside(H, next[j])
      ensures Earlier(next, j, next[j].epoch, next[j].number)
    {
      EarlierGrows(log, j, e, next[j].epoch, next[j].number);
    }
  }

  lemma {:induction false} FarApart(x: int, y: int)
    requires x != y && x >= y - SEQ_SPACE / 2
    ensures (x - y) % SEQ_SPACE == 0 ==> x >= y + SEQ_SPACE
  {
  }

  lemma {:induction false} NoDuplicatePasses(cfg: Config, events: seq<Event>)
    requires cfg.historyLength >= 1
    ensures var r := Runs(cfg, events); LogTracked(cfg.historyLength, r.window.takeAny, r.track, r.log)
    ensures EliminatesDuplicates(cfg.historyLength, Runs(cfg, events).log)
  {
    if events != [] {
      var r := Runs(cfg, events[..|events| - 1]);
      NoDuplicatePasses(cfg, events[..|events| - 1]);
      HistoryIsExact(cfg, events[..|events| - 1]);
      match events[|events| - 1] {
        case Packet(word) => PacketEliminates(cfg, r, word);
        case Tick =>
        case LatentReset =>
      }
    }
  }

  lemma {:induction false} PacketEliminates(cfg: Config, r: Run, word: nat)
    requires |r.window.history| == cfg.historyLength >= 1 && Represents(r.window, r.track)
    requires LogTracked(cfg.historyLength, r.window.takeAny, r.track, r.log)
    requires EliminatesDuplicates(cfg.historyLength, r.log)
    ensures var s := Step(cfg, r, Packet(word));
            LogTracked(cfg.historyLength, s.window.takeAny, s.track, s.log) &&
            EliminatesDuplicates(cfg.historyLength, s.log)
  {
    var num := word % SEQ_SPACE;
    WindowStep(r.window, r.track, num);
    LogGrows(cfg.historyLength, r.window, r.track, r.log, num);
    var e := Entry(r.track.epoch, Absolute(r.window, r.track, num), Met(r.window, r.track, num), Accepts(r.window,
             num));
    EliminationGrows(cfg.historyLength, r.window.takeAny, r.track, r.log, e);
  }

  /** After any run, every absolute number within one history length of the base that has not been
      accepted in this epoch is passed when its 16-bit form arrives next. */
  lemma {:induction false} UnseenIsPassed(cfg: Config, events: seq<Event>, n: int)
    requires 1 <= cfg.historyLength < SEQ_SPACE / 2
    requires var r := Runs(cfg, events);
             !r.window.takeAny && n !in r.track.accepted &&
             r.track.base - cfg.historyLength < n <= r.track.base + cfg.historyLength
    ensures var r := Runs(cfg, events);
            Absolute(r.window, r.track, n % SEQ_SPACE) == n && Accepts(r.window, n % SEQ_SPACE)
  {
    var r := Runs(cfg, events);
    HistoryIsExact(cfg, events);
    CalcDeltaIsDistance(n, r.track.base, n % SEQ_SPACE, r.window.recvSeq);
    WindowStep(r.window, r.track, n % SEQ_SPACE);
  }

  // ----- the loss counter accounts for every number the base moved over -----

  function Ones(h: seq<bool>): (n: nat)
    ensures n <= |h|
  {
    if h == [] then 0 else Ones(h[..|h| - 1]) + (if h[|h| - 1] then 1 else 0)
  }

  lemma {:induction false} OnesPrepend(h: seq<bool>, bit: bool)
    ensures Ones([bit] + h) == Ones(h) + (if bit then 1 else 0)
  {
    if h == [] {
      assert ([bit] + h)[..0] == [];
    } else {
      OnesPrepend(h[..|h| - 1], bit);
      assert ([bit] + h)[..|h|] == [bit] + h[..|h| - 1];
    }
  }

  lemma {:induction false} OnesUpdate(h: seq<bool>, i: nat)
    requires i < |h| && !h[i]
    ensures Ones(h[i := true]) == Ones(h) + 1
  {
    if i < |h| - 1 {
      OnesUpdate(h[..|h| - 1], i);
      assert h[i := true][..|h| - 1] == h[..|h| - 1][i := true];
    } else {
      assert h[i := true][..i] == h[..i];
    }
  }

  lemma {:induction false} OnesZero(h: seq<bool>)
    requires forall i :: 0 <= i < |h| ==> !h[i]
    ensures Ones(h) == 0
  {
    if h != [] { OnesZero(h[..|h| - 1]); }
  }

  /** What k shifts charge: every bit that leaves is a one, a loss, or a guard slot. */
  lemma {:induction false} ShiftsAreCharged(c: Counters, h: seq<bool>, k: nat)
    requires |h| >= 1
    ensures var d := AccountLoss(c, h, k);
            d.passed == c.passed && d.discarded == c.discarded && d.guard <= c.guard &&
            d.lost + c.guard - d.guard - c.lost == k - Ones(h) + Ones(ShiftedZeros(h, k))
  {
    if k > 0 {
      ShiftsAreCharged(c, h, k - 1);
      OnesPrepend(ShiftedZeros(h, k - 1)[..|h| - 1], false);
    }
  }

  /** The counters at the start of the epoch, its first number and the guard slots used in it. */
  datatype Ledger = Ledger(passed: nat, lost: nat, origin: int, guardUsed: int)

  function Books(cfg: Config, events: seq<Event>): (b: Ledger)
    requires cfg.historyLength >= 1
  {
    if events == [] then Ledger(0, 0, 0, 0)
    else
      var r, b := Runs(cfg, events[..|events| - 1]), Books(cfg, events[..|events| - 1]);
      match events[|events| - 1]
      case Packet(word) =>
        b.(origin := if r.window.takeAny then word % SEQ_SPACE else b.origin,
           guardUsed := b.guardUsed + r.counters.guard - Step(cfg, r, Packet(word)).counters.guard)
      case Tick => if r.counters.ticks == 1 then Ledger(r.counters.passed, r.counters.lost, 0, 0) else b
      case LatentReset => b
  }

  /** passed + lost + guard slots used == base advance + marks in the history, within the epoch. */
  predicate Balanced(r: Run, b: Ledger) {
    var advance := if r.window.takeAny then 0 else r.track.base - b.origin;
    (r.counters.passed - b.passed) + (r.counters.lost - b.lost) + b.guardUsed == advance + Ones(r.window.history)
  }

  lemma {:induction false} AdvanceIsCharged(c: Counters, h: seq<bool>, delta: nat)
    requires 1 <= delta <= |h|
    ensures var d := AccountLoss(c, h, delta);
            d.passed == c.passed && d.discarded == c.discarded &&
            d.lost - d.guard == c.lost - c.guard + delta - 1 + Ones(Advanced(h, delta)) - Ones(h)
  {
    var shifted := ShiftedZeros(h, delta - 1);
    ShiftsAreCharged(c, h, delta);
    OnesPrepend(shifted[..|h| - 1], false);
    OnesPrepend(shifted[..|h| - 1], true);
  }

  /** How far a packet moves the base. */
  function Moved(w: Window, num: nat): (m: nat) {
    var delta := CalcDelta(num, w.recvSeq);
    if !w.takeAny && 0 < delta <= |w.history| then delta else 0
  }

  lemma {:induction false} PacketIsCharged(cfg: Config, w: Window, c: Counters, num: nat)
    requires |w.history| >= 1 && (w.takeAny ==> !w.history[0])
    ensures var d := NextCounters(cfg, w, c, num);
            d.passed + d.lost - d.guard == c.passed + c.lost - c.guard + Moved(w, num)
                                           + Ones(NextWindow(w, num).history) - Ones(w.history) &&
            d.passed + d.discarded == c.passed + c.discarded + 1
  {
    var delta := CalcDelta(num, w.recvSeq);
    if w.takeAny {
      OnesUpdate(w.history, 0);
    } else if 0 < delta <= |w.history| {
      AdvanceIsCharged(if delta == 1 then c else c.(outOfOrder := c.outOfOrder + 1), w.history, delta);
    } else if -|w.history| < delta <= 0 {
      if w.history[-delta] {
        assert w.history[-delta := true] == w.history;
      } else {
        OnesUpdate(w.history, -delta);
      }
    }
  }

  lemma {:induction false} PacketBalances(cfg: Config, r: Run, b: Ledger, word: nat)
    requires |r.window.history| == cfg.historyLength >= 1 && Represents(r.window, r.track) && Balanced(r, b)
    ensures var s := Step(cfg, r, Packet(word));
            Balanced(s, b.(origin := if r.window.takeAny then word % SEQ_SPACE else b.origin,
                           guardUsed := b.guardUsed + r.counters.guard - s.counters.guard))
    ensures var c := Step(cfg, r, Packet(word)).counters;
            c.passed + c.discarded == r.counters.passed + r.counters.discarded + 1
  {
    PacketIsCharged(cfg, r.window, r.counters, word % SEQ_SPACE);
  }

  function Packets(events: seq<Event>): (n: nat) {
    if events == [] then 0 else Packets(events[..|events| - 1]) + (if events[|events| - 1].Packet? then 1 else 0)
  }

  /** Every run: the epoch's books balance, and every packet was either passed or discarded. */
  lemma {:induction false} LossIsAccounted(cfg: Config, events: seq<Event>)
    requires cfg.historyLength >= 1
    ensures Balanced(Runs(cfg, events), Books(cfg, events))
    ensures Runs(cfg, events).counters.passed + Runs(cfg, events).counters.discarded == Packets(events)
  {
    OnesZero(Zeros(cfg.historyLength));
    if events != [] {
      LossIsAccounted(cfg, events[..|events| - 1]);
      HistoryIsExact(cfg, events[..|events| - 1]);
      match events[|events| - 1] {
        case Packet(word) =>
          PacketBalances(cfg, Runs(cfg, events[..|events| - 1]), Books(cfg, events[..|events| - 1]), word);
        case Tick =>
        case LatentReset =>
      }
    }
  }

  // ----- the counters of the seamless algorithm -----

  /** Counters and number of passed packets after a run of words. */
  function SeamlessRunOf(cfg: Config, s: State, words: seq<nat>): (r: (State, nat))
    requires ValidState(cfg, s)
    ensures ValidState(cfg, r.0)
    decreases |words|
  {
    if words == [] then (s, 0) else
    var (t, n) := SeamlessRunOf(cfg, s, words[..|words| - 1]);
    var (u, pass) := SeamlessArrive(cfg, t, words[|words| - 1]);
    (u, if pass then n + 1 else n)
  }

  /** Whichever window judges a packet, it is counted as passed or discarded, and the timer starts anew when it
      passes. */
  lemma {:induction false} SeamlessCounted(cfg: Config, s: State, words: seq<nat>)
    requires ValidState(cfg, s)
    ensures var (t, n) := SeamlessRunOf(cfg, s, words);
            t.counters.passed == s.counters.passed + n &&
            t.counters.discarded == s.counters.discarded + |words| - n
    ensures words != [] ==>
              var before := SeamlessRunOf(cfg, s, words[..|words| - 1]);
              var (t, n) := SeamlessRunOf(cfg, s, words);
              t.counters.ticks == if n > before.1 || cfg.individual then cfg.resetTicks else before.0.counters.ticks
    decreases |words|
  {
    if words != [] {
      var s1 := SeamlessRunOf(cfg, s, words[..|words| - 1]).0;
      SeamlessCounted(cfg, s, words[..|words| - 1]);
      SeamlessOne(cfg, s1, words[|words| - 1]);
    }
  }

  lemma {:induction false} SeamlessOne(cfg: Config, s: State, word: nat)
    requires ValidState(cfg, s)
    ensures var (t, pass) := SeamlessArrive(cfg, s, word);
            t.counters.passed == s.counters.passed + (if pass then 1 else 0) &&
            t.counters.discarded == s.counters.discarded + (if pass then 0 else 1) &&
            t.counters.ticks == if pass || cfg.individual then cfg.resetTicks else s.counters.ticks
  {
    var num := word % SEQ_SPACE;
    OneJudged(cfg, s.reg, s.counters, num);
    OneJudged(cfg, s.reg.(takeAny := true), s.counters, num);
    OneJudged(cfg, s.init, s.counters, num);
    OneJudged(cfg, s.init.(takeAny := true), s.counters, num);
  }

  lemma {:induction false} OneJudged(cfg: Config, w: Window, c: Counters, num: nat)
    requires |w.history| >= 1
    ensures var d, pass := NextCounters(cfg, w, c, num), Accepts(w, num);
            d.passed == c.passed + (if pass then 1 else 0) && d.discarded == c.discarded + (if pass then 0 else 1) &&
            d.ticks == if pass || cfg.individual then cfg.resetTicks else c.ticks
  {
    TimerOfPacket(cfg, w, c, num);
    var delta := CalcDelta(num, w.recvSeq);
    if !w.takeAny && 0 < delta <= |w.history| {
      ShiftsAreCharged(if delta == 1 then c else c.(outOfOrder := c.outOfOrder + 1), w.history, delta);
    }
  }

  // ----- match recovery removes repetitions -----

  function MatchRun(cfg: Config, w: Window, c: Counters, words: seq<nat>): (out: seq<nat>)
    decreases |words|
  {
    if words == [] then []
    else
      var o := MatchArrive(cfg, w, c, words[0]);
      (if o.accept then [words[0] % SEQ_SPACE] else []) + MatchRun(cfg, o.window, o.counters, words[1..])
  }

  /** Counters after a run of the match algorithm. */
  function MatchCounters(cfg: Config, w: Window, c: Counters, words: seq<nat>): (d: Counters)
    decreases |words|
  {
    if words == [] then c
    else
      var o := MatchArrive(cfg, w, c, words[0]);
      MatchCounters(cfg, o.window, o.counters, words[1..])
  }

  /** How many numbers of a list do not follow the one before them. */
  function Jumps(last: int, out: seq<nat>): nat
    decreases |out|
  {
    if out == [] then 0
    else (if last >= 0 && (out[0] - last) % SEQ_SPACE != 1 then 1 else 0) + Jumps(out[0], out[1..])
  }

  /** Passed is the length of the output, discarded is the rest, and every passed number that does not follow the one
      passed before it came out of order. */
  lemma {:induction false} MatchCounted(cfg: Config, w: Window, c: Counters, words: seq<nat>)
    requires 0 <= w.recvSeq < SEQ_SPACE
    ensures var d, out := MatchCounters(cfg, w, c, words), MatchRun(cfg, w, c, words);
            d.passed == c.passed + |out| && d.discarded == c.discarded + |words| - |out| &&
            d.outOfOrder == c.outOfOrder + Jumps(if w.takeAny then -1 else w.recvSeq, out)
    decreases |words|
  {
    if words != [] {
      var o := MatchArrive(cfg, w, c, words[0]);
      MatchCounted(cfg, o.window, o.counters, words[1..]);
      var rest := MatchRun(cfg, o.window, o.counters, words[1..]);
      if o.accept { assert ([words[0] % SEQ_SPACE] + rest)[1..] == rest; } else { assert [] + rest == rest; }
    }
  }

  /** The timer of the match algorithm. */
  lemma {:induction false} MatchTimer(cfg: Config, w: Window, c: Counters, word: nat)
    ensures var o := MatchArrive(cfg, w, c, word);
            o.counters.ticks == if o.accept || cfg.individual then cfg.resetTicks else c.ticks
  {
  }

  /** The numbers of a stream with every run of equal numbers reduced to one. */
  function WithoutRepeats(last: int, words: seq<nat>): (out: seq<nat>)
    decreases |words|
  {
    if words == [] then []
    else
      var num := words[0] % SEQ_SPACE;
      (if num == last then [] else [num]) + WithoutRepeats(num, words[1..])
  }

  lemma {:induction false} MatchRemovesRepeats(cfg: Config, w: Window, c: Counters, words: seq<nat>)
    requires !w.takeAny ==> w.recvSeq < SEQ_SPACE
    ensures MatchRun(cfg, w, c, words) == WithoutRepeats(if w.takeAny then -1 else w.recvSeq, words)
    decreases |words|
  {
    if words != [] {
      var o := MatchArrive(cfg, w, c, words[0]);
      MatchRemovesRepeats(cfg, o.window, o.counters, words[1..]);
    }
  }
}
