/** Sequence generation (seq_gen.c), with the reset flag and the initial number space of the
    seamless reset. */
module SeqGenerator {
  import opened SeqRecovery

  const RESET_FLAG_COUNT: nat := 3

  datatype GenConfig = GenConfig(useResetFlag: bool, useInitFlag: bool, initSeqStart: nat)

  /** Whether output k since the last reset is in the initial number space. */
  predicate InInit(g: GenConfig, k: nat) {
    g.useInitFlag && g.initSeqStart + k < SEQ_SPACE
  }

  /** The number of output k. A start outside the number space is itself sent once, cut to 16 bits. */
  function NumberAt(g: GenConfig, k: nat): nat {
    if !g.useInitFlag then k % SEQ_SPACE
    else if g.initSeqStart < SEQ_SPACE then (g.initSeqStart + k) % SEQ_SPACE
    else if k == 0 then g.initSeqStart % SEQ_SPACE
    else k % SEQ_SPACE
  }

  /** How many outputs carry the reset flag: three, but when the initial space is too short to count
      them, all of it and three regular ones. */
  function ResetCount(g: GenConfig): nat {
    if !g.useResetFlag then 0
    else if g.useInitFlag && SEQ_SPACE - RESET_FLAG_COUNT <= g.initSeqStart < SEQ_SPACE
    then SEQ_SPACE - g.initSeqStart + RESET_FLAG_COUNT
    else RESET_FLAG_COUNT
  }

  /** Output k since the last reset: number and flags in one word. */
  function WordAt(g: GenConfig, k: nat): (word: nat)
    ensures word % SEQ_SPACE == NumberAt(g, k)
    ensures HasInit(word) == InInit(g, k) && HasReset(word) == (k < ResetCount(g))
  {
    NumberAt(g, k) + (if k < ResetCount(g) then RESET_FLAG else 0) + (if InInit(g, k) then INIT_FLAG else 0)
  }

  /** A generator that is not to use a flag never sets it. */
  lemma {:induction false} FlagsOnlyAsAsked(g: GenConfig, k: nat)
    ensures !g.useResetFlag ==> !HasReset(WordAt(g, k))
    ensures !g.useInitFlag ==> !HasInit(WordAt(g, k))
    ensures g.useResetFlag && k < 3 ==> HasReset(WordAt(g, k))
  {
  }

  /** The first number after a reset is the configured one, cut to 16 bits, or 0 without the initial space. */
  lemma {:induction false} FirstNumber(g: GenConfig)
    ensures WordAt(g, 0) % SEQ_SPACE == if g.useInitFlag then g.initSeqStart % SEQ_SPACE else 0
  {
  }

  lemma {:induction false} NumbersFollow(g: GenConfig, k: nat)
    requires !g.useInitFlag || g.initSeqStart < SEQ_SPACE || k > 0
    ensures NumberAt(g, k + 1) == if NumberAt(g, k) == SEQ_SPACE - 1 then 0 else NumberAt(g, k) + 1
  {
  }

  class SequenceGenerator {
    const cfg: GenConfig
    var genSeqNum: nat
    var initGenSeqNum: nat
    var resetFlag: bool
    var useInitSeqSpace: bool
    var resets: nat
    ghost var sent: nat  // outputs since the last reset

    ghost predicate Valid()
      reads this
    {
      useInitSeqSpace == (cfg.useInitFlag && (sent == 0 || cfg.initSeqStart + sent <= SEQ_SPACE)) &&
      resetFlag == (cfg.useResetFlag && sent <= ResetCount(cfg)) &&
      (useInitSeqSpace ==> initGenSeqNum == cfg.initSeqStart + sent) &&
      (!useInitSeqSpace ==> genSeqNum == NumberAt(cfg, sent))
    }

    constructor (cfg: GenConfig)
      ensures Valid() && this.cfg == cfg && sent == 0
    {
      this.cfg := cfg;
      genSeqNum, initGenSeqNum := 0, cfg.initSeqStart;
      resetFlag, useInitSeqSpace := cfg.useResetFlag, cfg.useInitFlag;
      resets, sent := 0, 0;
    }

    method Reset()
      modifies this
      ensures Valid() && sent == 0 && resets == old(resets) + 1
    {
      resetFlag := cfg.useResetFlag;
      useInitSeqSpace := cfg.useInitFlag;
      genSeqNum := 0;
      initGenSeqNum := cfg.initSeqStart;
      resets := resets + 1;
      sent := 0;
    }

    /** Output number `sent` since the last reset is the closed form `WordAt`. */
    method Generate() returns (word: nat)
      requires Valid()
      modifies this
      ensures Valid() && sent == old(sent) + 1 && resets == old(resets)
      ensures word == WordAt(cfg, old(sent))
    {
      var num: nat;
      if useInitSeqSpace {
        num := GenerateInit();
      } else {
        num := GenerateRegular();
      }
      word := num + (if resetFlag then RESET_FLAG else 0) + (if useInitSeqSpace then INIT_FLAG else 0);
    }

    method GenerateInit() returns (num: nat)
      requires Valid() && useInitSeqSpace
      modifies this
      ensures Valid() && sent == old(sent) + 1 && resets == old(resets)
      ensures num == NumberAt(cfg, old(sent)) && useInitSeqSpace == InInit(cfg, old(sent))
      ensures resetFlag == (old(sent) < ResetCount(cfg))
    {
      num := initGenSeqNum % SEQ_SPACE;
      if initGenSeqNum > SEQ_SPACE - 1 {
        genSeqNum := 1;
        useInitSeqSpace := false;
        initGenSeqNum := cfg.initSeqStart;
      } else {
        initGenSeqNum := initGenSeqNum + 1;
        if initGenSeqNum > cfg.initSeqStart + RESET_FLAG_COUNT {
          resetFlag := false;
        }
      }
      sent := sent + 1;
    }

    method GenerateRegular() returns (num: nat)
      requires Valid() && !useInitSeqSpace
      modifies this
      ensures Valid() && !useInitSeqSpace && sent == old(sent) + 1 && resets == old(resets)
      ensures num == NumberAt(cfg, old(sent)) && !InInit(cfg, old(sent))
      ensures resetFlag == (old(sent) < ResetCount(cfg))
    {
      NumbersFollow(cfg, sent);
      num := genSeqNum % SEQ_SPACE;
      if genSeqNum >= SEQ_SPACE - 1 {
        genSeqNum := 0;
      } else {
        genSeqNum := genSeqNum + 1;
        if genSeqNum > RESET_FLAG_COUNT {
          resetFlag := false;
        }
      }
      sent := sent + 1;
    }
  }
}
