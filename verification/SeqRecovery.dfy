/** Sequence recovery (seq_recov.c): duplicate elimination on a 16-bit modular window.
    The class works in place on history arrays; `Recover`, `SeamlessArrive` and `MatchArrive`
    are its specification on values, and the run theorems live in `VectorRuns`. */
module SeqRecovery {

  const SEQ_SPACE: int := 65536
  const INIT_FLAG: int := 0x200_0000
  const RESET_FLAG: int := 0x400_0000

  datatype Config = Config(historyLength: nat, resetTicks: nat, individual: bool,
                           useResetFlag: bool, useInitFlag: bool)

  datatype Window = Window(recvSeq: nat, takeAny: bool, history: seq<bool>)

  datatype Counters = Counters(lost: nat, outOfOrder: nat, passed: nat, rogue: nat, discarded: nat,
                               consecutiveLoss: nat, consecutiveLossMax: nat, guard: nat, ticks: nat)

  datatype Algorithm = VectorAlgorithm | SeamlessAlgorithm | MatchAlgorithm

  /** Latent-error bookkeeping: working paths, the difference that counts as normal, and resets. */
  datatype Latent = Latent(paths: int, baseDifference: int, resets: nat)

  datatype Outcome = Outcome(window: Window, counters: Counters, accept: bool)

  /** The signed distance from seq2 to seq1, in half the number space either way. */
  function CalcDelta(seq1: int, seq2: int): (delta: int)
    ensures -SEQ_SPACE / 2 <= delta < SEQ_SPACE / 2
    ensures (seq2 + delta - seq1) % SEQ_SPACE == 0
  {
    var d := (seq1 - seq2) % SEQ_SPACE;
    if d >= SEQ_SPACE / 2 then d - SEQ_SPACE else d
  }

  /** Any representative of the two numbers whose distance is below half the space gives that distance. */
  lemma {:induction false} CalcDeltaIsDistance(x: int, y: int, seq1: int, seq2: int)
    requires (x - seq1) % SEQ_SPACE == 0 && (y - seq2) % SEQ_SPACE == 0
    requires -SEQ_SPACE / 2 <= x - y < SEQ_SPACE / 2
    ensures CalcDelta(seq1, seq2) == x - y
  {
    var d := CalcDelta(seq1, seq2);
    assert (seq2 + d - seq1) % SEQ_SPACE == 0;
    var k1 := (x - seq1) / SEQ_SPACE;
    var k2 := (y - seq2) / SEQ_SPACE;
    var k3 := (seq2 + d - seq1) / SEQ_SPACE;
    assert x - seq1 == k1 * SEQ_SPACE && y - seq2 == k2 * SEQ_SPACE && seq2 + d - seq1 == k3 * SEQ_SPACE;
    assert d - (x - y) == (k3 - k1 + k2) * SEQ_SPACE;
  }

  function Shifted(h: seq<bool>, bit: bool): (r: seq<bool>)
    requires |h| >= 1
    ensures |r| == |h|
  {
    [bit] + h[..|h| - 1]
  }

  function ShiftedZeros(h: seq<bool>, k: nat): (r: seq<bool>)
    requires |h| >= 1
    ensures |r| == |h|
  {
    if k == 0 then h else Shifted(ShiftedZeros(h, k - 1), false)
  }

  /** The history after the window moved forward by delta to a received packet. */
  function Advanced(h: seq<bool>, delta: nat): (r: seq<bool>)
    requires 1 <= delta <= |h|
    ensures |r| == |h|
  {
    Shifted(ShiftedZeros(h, delta - 1), true)
  }

  lemma {:induction false} ShiftedZerosAt(h: seq<bool>, k: nat, i: nat)
    requires i < |h|
    ensures ShiftedZeros(h, k)[i] == (i >= k && h[i - k])
    decreases k
  {
    if k > 0 && i > 0 { ShiftedZerosAt(h, k - 1, i - 1); }
  }

  /** Moving the window forward by delta marks the new number, leaves the skipped ones unmarked
      and moves every other mark delta places back. */
  lemma {:induction false} AdvancedAt(h: seq<bool>, delta: nat, i: nat)
    requires 1 <= delta <= |h| && i < |h|
    ensures Advanced(h, delta)[i] == (i == 0 || (i >= delta && h[i - delta]))
  {
    if i > 0 { ShiftedZerosAt(h, delta - 1, i - 1); }
  }

  /** One bit leaves the history: a zero is a loss unless the guard after a reset absorbs it. */
  function AccountShift(c: Counters, oldest: bool): (r: Counters) {
    if oldest then c.(consecutiveLoss := 0)
    else if c.guard > 0 then c.(guard := c.guard - 1)
    else
      var run := c.consecutiveLoss + 1;
      c.(lost := c.lost + 1, consecutiveLoss := run,
         consecutiveLossMax := if run > c.consecutiveLossMax then run else c.consecutiveLossMax)
  }

  /** k bits leave the history one by one while zeros enter it. */
  function AccountLoss(c: Counters, h: seq<bool>, k: nat): (r: Counters)
    requires |h| >= 1
  {
    if k == 0 then c else AccountShift(AccountLoss(c, h, k - 1), ShiftedZeros(h, k - 1)[|h| - 1])
  }

  function Discarded(cfg: Config, c: Counters): (r: Counters) {
    c.(discarded := c.discarded + 1, ticks := if cfg.individual then cfg.resetTicks else c.ticks)
  }

  function Passed(cfg: Config, c: Counters): (r: Counters) {
    c.(passed := c.passed + 1, ticks := cfg.resetTicks)
  }

  /** Inside the window and not marked there, or anything when the window takes any packet. */
  predicate Accepts(w: Window, num: nat) {
    var delta := CalcDelta(num, w.recvSeq);
    w.takeAny || 0 < delta <= |w.history| || (-|w.history| < delta <= 0 && !w.history[-delta])
  }

  function NextWindow(w: Window, num: nat): (r: Window)
    requires |w.history| >= 1
    ensures |r.history| == |w.history|
  {
    var delta := CalcDelta(num, w.recvSeq);
    if w.takeAny then Window(num, false, w.history[0 := true])
    else if 0 < delta <= |w.history| then Window(num, false, Advanced(w.history, delta))
    else if -|w.history| < delta <= 0 then w.(history := w.history[-delta := true])
    else w
  }

  function NextCounters(cfg: Config, w: Window, c: Counters, num: nat): (r: Counters)
    requires |w.history| >= 1
  {
    var delta := CalcDelta(num, w.recvSeq);
    if !Accepts(w, num) then
      Discarded(cfg, if -|w.history| < delta <= |w.history| then c else c.(rogue := c.rogue + 1))
    else
      var c1 := if w.takeAny || delta == 1 then c else c.(outOfOrder := c.outOfOrder + 1);
      Passed(cfg, if !w.takeAny && delta > 0 then AccountLoss(c1, w.history, delta) else c1)
  }

  function Recover(cfg: Config, w: Window, c: Counters, num: nat): (r: Outcome)
    requires |w.history| == cfg.historyLength >= 1
    ensures |r.window.history| == cfg.historyLength
  {
    Outcome(NextWindow(w, num), NextCounters(cfg, w, c, num), Accepts(w, num))
  }

  predicate HasInit(word: nat) { (word / INIT_FLAG) % 2 == 1 }
  predicate HasReset(word: nat) { (word / RESET_FLAG) % 2 == 1 }

  datatype State = State(reg: Window, init: Window, counters: Counters)

  predicate ValidState(cfg: Config, s: State) {
    |s.reg.history| == |s.init.history| == cfg.historyLength >= 1
  }

  /** A reset flag takes effect only outside the ignore range (-2H, H]. */
  predicate ResetApplies(cfg: Config, num: nat, recvSeq: nat) {
    var delta := CalcDelta(num, recvSeq);
    delta > cfg.historyLength || delta <= -2 * cfg.historyLength
  }

  function SeamlessArrive(cfg: Config, s: State, word: nat): (r: (State, bool))
    requires ValidState(cfg, s)
    ensures ValidState(cfg, r.0)
  {
    var num := word % SEQ_SPACE;
    if cfg.useResetFlag && cfg.useInitFlag && HasInit(word) then
      var init := if HasReset(word) && ResetApplies(cfg, num, s.init.recvSeq)
                  then s.init.(takeAny := true) else s.init;
      var reg := if SEQ_SPACE - 3 * cfg.historyLength <= num < SEQ_SPACE - cfg.historyLength
                 then s.reg.(takeAny := true) else s.reg;
      var o := Recover(cfg, init, s.counters, num);
      (State(reg, o.window, o.counters), o.accept)
    else
      var reg := if cfg.useResetFlag && HasReset(word) && ResetApplies(cfg, num, s.reg.recvSeq)
                 then s.reg.(takeAny := true) else s.reg;
      var o := Recover(cfg, reg, s.counters, num);
      (State(o.window, s.init, o.counters), o.accept)
  }

  /** Match recovery compares with the last accepted number only. */
  function MatchArrive(cfg: Config, w: Window, c: Counters, word: nat): (r: Outcome) {
    var num := word % SEQ_SPACE;
    if w.takeAny then Outcome(Window(num, false, w.history), Passed(cfg, c), true)
    else
      var delta := (num - w.recvSeq) % SEQ_SPACE;
      if delta == 0 then Outcome(w, Discarded(cfg, c), false)
      else
        var c1 := if delta != 1 then c.(outOfOrder := c.outOfOrder + 1) else c;
        Outcome(Window(num, false, w.history), Passed(cfg, c1), true)
  }

  function Zeros(n: nat): (r: seq<bool>)
    ensures |r| == n && forall i :: 0 <= i < n ==> !r[i]
  {
    seq(n, i => false)
  }

  const ResetWindow: nat := 65535

  /** A window after a reset; the match algorithm keeps number and history. */
  function Forgotten(w: Window, algorithm: Algorithm): Window {
    if algorithm.MatchAlgorithm? then w.(takeAny := true) else Window(ResetWindow, true, Zeros(|w.history|))
  }

  /** Only the seamless algorithm uses the initial window, and resets it. */
  function ForgottenInit(w: Window, algorithm: Algorithm): Window {
    if algorithm.SeamlessAlgorithm? then Forgotten(w, algorithm) else w
  }

  /** One tick less; at zero the timer stands. */
  function Ticked(c: Counters): Counters { c.(ticks := if c.ticks == 0 then 0 else c.ticks - 1) }

  /** Whatever number comes first after a reset is passed, by each algorithm. */
  lemma {:induction false} ResetTakesAny(cfg: Config, s: State, algorithm: Algorithm, word: nat)
    requires ValidState(cfg, s)
    ensures var reg, init := Forgotten(s.reg, algorithm), ForgottenInit(s.init, algorithm);
            match algorithm
            case VectorAlgorithm => Recover(cfg, reg, s.counters, word % SEQ_SPACE).accept
            case SeamlessAlgorithm => SeamlessArrive(cfg, State(reg, init, s.counters), word).1
            case MatchAlgorithm => MatchArrive(cfg, reg, s.counters, word).accept
  {
  }

  /** How far the duplicates discarded are from what the paths should deliver, against the normal difference. */
  function LatentDifference(l: Latent, c: Counters): int {
    l.baseDifference - (c.passed * (l.paths - 1) - c.discarded)
  }

  /** The present difference becomes the normal one, for whatever number of paths there is now. */
  function Rebased(l: Latent, c: Counters): (r: Latent)
    ensures LatentDifference(r, c) == 0 && r.paths == l.paths && r.resets == l.resets + 1
  {
    Latent(l.paths, c.passed * (l.paths - 1) - c.discarded, l.resets + 1)
  }

  /** The object whose methods run under the recovery mutex, each as one atomic step. */
  class SequenceRecovery {
    const cfg: Config
    const history: array<bool>
    const initHistory: array<bool>
    var recvSeq: nat
    var initRecvSeq: nat
    var takeAny: bool
    var initTakeAny: bool
    var counters: Counters
    var seqRecoveryResets: nat
    var latent: Latent

    ghost predicate Valid()
      reads this
    {
      history.Length == initHistory.Length == cfg.historyLength && history != initHistory
    }

    ghost function Regular(): (w: Window)
      reads this, history
    {
      Window(recvSeq, takeAny, history[..])
    }

    ghost function Initial(): (w: Window)
      reads this, initHistory
    {
      Window(initRecvSeq, initTakeAny, initHistory[..])
    }

    ghost function Value(): (s: State)
      reads this, history, initHistory
    {
      State(Regular(), Initial(), counters)
    }

    constructor (cfg: Config, paths: int)
      ensures Valid() && this.cfg == cfg && fresh(history) && fresh(initHistory)
      ensures Regular() == Initial() == Window(0, true, Zeros(cfg.historyLength))
      ensures counters == Counters(0, 0, 0, 0, 0, 0, 0, 0, cfg.resetTicks)
      ensures seqRecoveryResets == 0 && latent == Latent(paths, 0, 0)
    {
      this.cfg := cfg;
      history := new bool[cfg.historyLength](i => false);
      initHistory := new bool[cfg.historyLength](i => false);
      recvSeq, initRecvSeq := 0, 0;
      takeAny, initTakeAny := true, true;
      counters := Counters(0, 0, 0, 0, 0, 0, 0, 0, cfg.resetTicks);
      seqRecoveryResets, latent := 0, Latent(paths, 0, 0);
    }

    static method ShiftArray(h: array<bool>, newZero: bool)
      requires h.Length >= 1
      modifies h
      ensures h[..] == Shifted(old(h[..]), newZero)
    {
      ghost var was := h[..];
      var i := h.Length - 1;
      while i != 0
        invariant 0 <= i < h.Length
        invariant forall j :: 0 <= j <= i ==> h[j] == was[j]
        invariant forall j :: i < j < h.Length ==> h[j] == was[j - 1]
      {
        h[i] := h[i - 1];
        i := i - 1;
      }
      h[0] := newZero;
    }

    /** Shift one bit into the given history array and account for the bit that leaves it. */
    method ShiftSeqHistory(h: array<bool>, newZero: bool)
      requires Valid() && cfg.historyLength >= 1 && (h == history || h == initHistory)
      modifies this`counters, h
      ensures h[..] == Shifted(old(h[..]), newZero)
      ensures counters == AccountShift(old(counters), old(h[..])[h.Length - 1])
    {
      if !h[h.Length - 1] {
        if counters.guard == 0 {
          counters := counters.(lost := counters.lost + 1);
          counters := counters.(consecutiveLoss := counters.consecutiveLoss + 1);
          if counters.consecutiveLoss > counters.consecutiveLossMax {
            counters := counters.(consecutiveLossMax := counters.consecutiveLoss);
          }
        } else {
          counters := counters.(guard := counters.guard - 1);
        }
      } else {
        counters := counters.(consecutiveLoss := 0);
      }
      ShiftArray(h, newZero);
    }

    /** Move the given history forward by delta: delta - 1 missing packets, then the received one. */
    method AdvanceHistory(h: array<bool>, delta: nat)
      requires Valid() && cfg.historyLength >= 1 && (h == history || h == initHistory)
      requires 1 <= delta <= h.Length
      modifies this`counters, h
      ensures h[..] == Advanced(old(h[..]), delta)
      ensures counters == AccountLoss(old(counters), old(h[..]), delta)
    {
      ghost var was, tally, k := h[..], counters, 0;
      var left := delta - 1;
      while left != 0
        invariant 0 <= left && left + k == delta - 1
        invariant h[..] == ShiftedZeros(was, k)
        invariant counters == AccountLoss(tally, was, k)
      {
        ShiftSeqHistory(h, false);
        left, k := left - 1, k + 1;
      }
      ShiftSeqHistory(h, true);
    }

    method RecoverPacket(packetSeq: nat, init: bool) returns (accept: bool)
      requires Valid() && cfg.historyLength >= 1
      modifies this, history, initHistory
      ensures Valid()
      ensures var o := Recover(cfg, old(if init then Initial() else Regular()), old(counters), packetSeq);
              accept == o.accept && counters == o.counters &&
              (if init then Initial() == o.window && Regular() == old(Regular())
               else Regular() == o.window && Initial() == old(Initial()))
      ensures seqRecoveryResets == old(seqRecoveryResets) && latent == old(latent)
    {
      if init {
        initRecvSeq, initTakeAny, accept := RecoverOn(initHistory, initRecvSeq, initTakeAny, packetSeq);
      } else {
        recvSeq, takeAny, accept := RecoverOn(history, recvSeq, takeAny, packetSeq);
      }
    }

    /** The algorithm proper, on the chosen window: its number and take-any flag come in and go out,
        its history is updated in place. */
    method RecoverOn(h: array<bool>, recv: nat, any: bool, packetSeq: nat)
      returns (recv': nat, any': bool, accept: bool)
      requires Valid() && cfg.historyLength >= 1 && (h == history || h == initHistory)
      modifies this`counters, h
      ensures Outcome(Window(recv', any', h[..]), counters, accept)
           == Recover(cfg, Window(recv, any, old(h[..])), old(counters), packetSeq)
    {
      var H: int := cfg.historyLength;
      var delta := CalcDelta(packetSeq, recv);
      recv', any', accept := recv, any, false;
      if any {
        any' := false;
        h[0] := true;
        recv' := packetSeq;
        accept := true;
      } else if delta > H || delta <= -H {
        counters := counters.(rogue := counters.rogue + 1);
      } else if delta <= 0 {
        if !h[-delta] {
          h[-delta] := true;
          counters := counters.(outOfOrder := counters.outOfOrder + 1);
          accept := true;
        } else {
          assert h[..][-delta := true] == h[..];
        }
      } else {
        if delta != 1 {
          counters := counters.(outOfOrder := counters.outOfOrder + 1);
        }
        AdvanceHistory(h, delta);
        recv' := packetSeq;
        accept := true;
      }
      Settle(accept);
    }

    /** Count the packet and restart the reset timer. */
    method Settle(accept: bool)
      modifies this`counters
      ensures counters == if accept then Passed(cfg, old(counters)) else Discarded(cfg, old(counters))
    {
      if accept {
        counters := counters.(passed := counters.passed + 1, ticks := cfg.resetTicks);
      } else {
        counters := counters.(discarded := counters.discarded + 1);
        if cfg.individual {
          counters := counters.(ticks := cfg.resetTicks);
        }
      }
    }

    method VectorSeqRecovery(word: nat) returns (accept: bool)
      requires Valid() && cfg.historyLength >= 1
      modifies this, history, initHistory
      ensures Valid() && Initial() == old(Initial())
      ensures Outcome(Regular(), counters, accept) == Recover(cfg, old(Regular()), old(counters), word % SEQ_SPACE)
      ensures seqRecoveryResets == old(seqRecoveryResets) && latent == old(latent)
    {
      accept := RecoverPacket(word % SEQ_SPACE, false);
    }

    method SeamlessSeqRecovery(word: nat) returns (accept: bool)
      requires Valid() && cfg.historyLength >= 1
      modifies this, history, initHistory
      ensures Valid() && (Value(), accept) == SeamlessArrive(cfg, old(Value()), word)
      ensures seqRecoveryResets == old(seqRecoveryResets) && latent == old(latent)
    {
      var num := word % SEQ_SPACE;
      var H: int := cfg.historyLength;
      if cfg.useResetFlag {
        if cfg.useInitFlag {
          if HasInit(word) {
            var delta := CalcDelta(num, initRecvSeq);
            if HasReset(word) {
              if delta > H || delta <= -H * 2 { initTakeAny := true; }
            }
            if num >= SEQ_SPACE - 3 * H && num < SEQ_SPACE - H { takeAny := true; }
            accept := RecoverPacket(num, true);
            return;
          }
        }
        if HasReset(word) {
          var delta := CalcDelta(num, recvSeq);
          if delta > H || delta <= -H * 2 { takeAny := true; }
        }
      }
      accept := RecoverPacket(num, false);
    }

    method MatchSeqRecovery(word: nat) returns (accept: bool)
      requires Valid()
      modifies this
      ensures Valid() && Initial() == old(Initial())
      ensures Outcome(Regular(), counters, accept) == MatchArrive(cfg, old(Regular()), old(counters), word)
      ensures seqRecoveryResets == old(seqRecoveryResets) && latent == old(latent)
    {
      var num := word % SEQ_SPACE;
      var delta := (num - recvSeq) % SEQ_SPACE;
      if takeAny {
        takeAny := false;
        accept := true;
      } else {
        if delta > 1 {
          counters := counters.(outOfOrder := counters.outOfOrder + 1);
        }
        accept := delta != 0;
      }
      if accept { recvSeq := num; }
      Settle(accept);
    }

    /** The timer's reset: take whatever comes next; all but the match algorithm also forget their windows. */
    method Reset(algorithm: Algorithm)
      requires Valid()
      modifies this, history, initHistory
      ensures Valid() && counters == old(counters) && latent == old(latent)
      ensures seqRecoveryResets == old(seqRecoveryResets) + 1
      ensures Regular() == Forgotten(old(Regular()), algorithm)
      ensures Initial() == ForgottenInit(old(Initial()), algorithm)
    {
      seqRecoveryResets := seqRecoveryResets + 1;
      takeAny := true;
      if !algorithm.MatchAlgorithm? {
        recvSeq := SEQ_SPACE - 1;
        forall i | 0 <= i < history.Length { history[i] := false; }
      }
      if algorithm.SeamlessAlgorithm? {
        forall i | 0 <= i < initHistory.Length { initHistory[i] := false; }
        initRecvSeq := SEQ_SPACE - 1;
        initTakeAny := true;
      }
    }

    /** The periodic tick. When the ticks run out the recovery resets; one of an OAM session ends instead. */
    method Tick(algorithm: Algorithm, oamSession: bool) returns (ended: bool)
      requires Valid()
      modifies this, history, initHistory
      ensures Valid() && latent == old(latent) && (ended <==> oamSession && old(counters.ticks) == 1)
      ensures counters == Ticked(old(counters))
      ensures if old(counters.ticks) == 1 && !oamSession
              then Regular() == Forgotten(old(Regular()), algorithm) &&
                   Initial() == ForgottenInit(old(Initial()), algorithm) &&
                   seqRecoveryResets == old(seqRecoveryResets) + 1
              else Regular() == old(Regular()) && Initial() == old(Initial()) &&
                   seqRecoveryResets == old(seqRecoveryResets)
    {
      if counters.ticks != 0 {
        counters := counters.(ticks := counters.ticks - 1);
        if counters.ticks == 0 {
          if oamSession { return true; }
          Reset(algorithm);
        }
      }
      return false;
    }

    /** No loss is counted while the history fills again, and the latent-error test starts from zero. */
    method LatentErrorReset()
      requires Valid() && cfg.historyLength >= 1
      modifies this`counters, this`latent
      ensures Valid() && Value() == old(Value()).(counters := old(counters).(guard := cfg.historyLength - 1))
      ensures latent == Rebased(old(latent), counters) && LatentDifference(latent, counters) == 0
    {
      latent := latent.(baseDifference := counters.passed * (latent.paths - 1) - counters.discarded);
      latent := latent.(resets := latent.resets + 1);
      counters := counters.(guard := cfg.historyLength - 1);
    }
  }
}
