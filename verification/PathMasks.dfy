/** Masking of recovery inputs (seq_recov.c): the count of working paths and the start/stop signals
    that a recovery sends downstream when its last input is masked. */
module PathMasks {
  import opened Basics
  import opened SeqRecovery

  datatype Signal = StartMask | StopMask

  /** inputs: registered pre-recovery points and whether each is masked; signals: sent so far. */
  datatype Paths = Paths(count: int, inputs: map<string, bool>, signals: seq<Signal>)

  datatype Call = Masked(name: string) | Unmasked(name: string)

  function MaskPath(p: Paths, name: string): (r: (Paths, bool)) {
    if name !in p.inputs || p.inputs[name] || p.count <= 0 then (p, false)
    else (Paths(p.count - 1, p.inputs[name := true],
                if p.count - 1 == 0 then p.signals + [StartMask] else p.signals), true)
  }

  function UnmaskPath(admin: int, p: Paths, name: string): (r: (Paths, bool)) {
    if name !in p.inputs || !p.inputs[name] || p.count >= admin then (p, false)
    else (Paths(p.count + 1, p.inputs[name := false],
                if p.count + 1 == 1 then p.signals + [StopMask] else p.signals), true)
  }

  function MaskedInputs(p: Paths): set<string> {
    set name | name in p.inputs && p.inputs[name]
  }

  /** start, stop, start, ... */
  predicate Alternating(signals: seq<Signal>) {
    forall i :: 0 <= i < |signals| ==> signals[i] == (if i % 2 == 0 then StartMask else StopMask)
  }

  predicate Outstanding(signals: seq<Signal>) { |signals| % 2 == 1 }

  ghost predicate Consistent(admin: int, p: Paths) {
    p.count + |MaskedInputs(p)| == admin && (p.count >= 0 || p.count == admin) &&
    Alternating(p.signals) && (Outstanding(p.signals) <==> p.count == 0 && admin > 0)
  }

  /** The recovery's mask bookkeeping, updated in place. The count of working paths is the recovery's own. */
  class RecoveryPaths {
    const admin: int
    const rec: SequenceRecovery
    var preAutoMip: map<string, bool>
    var signals: seq<Signal>  // calls made to start or stop the downstream mask session

    ghost function Value(): (p: Paths)
      reads this, rec
    {
      Paths(rec.latent.paths, preAutoMip, signals)
    }

    constructor (rec: SequenceRecovery, names: set<string>)
      ensures this.rec == rec && admin == rec.latent.paths
      ensures Value() == Paths(admin, map n | n in names :: false, [])
    {
      this.rec, admin := rec, rec.latent.paths;
      preAutoMip := map n | n in names :: false;
      signals := [];
    }

    /** Windows and packet counters are not touched; the new path count makes a latent-error reset. */
    twostate predicate Renewed(ok: bool)
      requires rec.Valid() && rec.cfg.historyLength >= 1
      reads this, rec, rec.history, rec.initHistory
    {
      if ok then
        rec.Value() == old(rec.Value()).(counters := old(rec.counters).(guard := rec.cfg.historyLength - 1)) &&
        LatentDifference(rec.latent, rec.counters) == 0 && rec.latent.resets == old(rec.latent.resets) + 1
      else rec.Value() == old(rec.Value()) && rec.latent == old(rec.latent)
    }

    method PathMasked(name: string) returns (ok: bool)
      requires rec.Valid() && rec.cfg.historyLength >= 1
      modifies this, rec`latent, rec`counters
      ensures rec.Valid() && (Value(), ok) == MaskPath(old(Value()), name) && Renewed(ok)
    {
      if name !in preAutoMip { return false; }
      if preAutoMip[name] { return false; }
      if rec.latent.paths <= 0 { return false; }
      preAutoMip := preAutoMip[name := true];
      rec.latent := rec.latent.(paths := rec.latent.paths - 1);
      rec.LatentErrorReset();
      if rec.latent.paths == 0 {
        signals := signals + [StartMask];
      }
      return true;
    }

    method PathUnmasked(name: string) returns (ok: bool)
      requires rec.Valid() && rec.cfg.historyLength >= 1
      modifies this, rec`latent, rec`counters
      ensures rec.Valid() && (Value(), ok) == UnmaskPath(admin, old(Value()), name) && Renewed(ok)
    {
      if name !in preAutoMip { return false; }
      if !preAutoMip[name] { return false; }
      if rec.latent.paths >= admin { return false; }
      preAutoMip := preAutoMip[name := false];
      rec.latent := rec.latent.(paths := rec.latent.paths + 1);
      rec.LatentErrorReset();
      if rec.latent.paths == 1 {
        signals := signals + [StopMask];
      }
      return true;
    }
  }

  function Apply(admin: int, p: Paths, call: Call): (r: (Paths, bool)) {
    match call
    case Masked(name) => MaskPath(p, name)
    case Unmasked(name) => UnmaskPath(admin, p, name)
  }

  function After(admin: int, names: set<string>, calls: seq<Call>): (p: Paths) {
    if calls == [] then Paths(admin, map n | n in names :: false, [])
    else Apply(admin, After(admin, names, calls[..|calls| - 1]), calls[|calls| - 1]).0
  }

  lemma {:induction false} MaskKeeps(admin: int, p: Paths, name: string)
    requires Consistent(admin, p)
    ensures Consistent(admin, MaskPath(p, name).0)
  {
    var q := MaskPath(p, name).0;
    if MaskPath(p, name).1 {
      assert MaskedInputs(q) == MaskedInputs(p) + {name};
    }
  }

  lemma {:induction false} UnmaskKeeps(admin: int, p: Paths, name: string)
    requires Consistent(admin, p)
    ensures Consistent(admin, UnmaskPath(admin, p, name).0)
    ensures UnmaskPath(admin, p, name).1 <==> name in p.inputs && p.inputs[name]
  {
    var q := UnmaskPath(admin, p, name).0;
    if name in p.inputs && p.inputs[name] {
      assert name in MaskedInputs(p);
      assert MaskedInputs(q) == MaskedInputs(p) - {name} || q == p;
    }
  }

  /** After every sequence of mask and unmask calls: working paths plus masked inputs is the
      configured count, the signals strictly alternate beginning with start, and one is outstanding
      exactly when no path is left. */
  lemma {:induction false} PathsAreConserved(admin: int, names: set<string>, calls: seq<Call>)
    ensures Consistent(admin, After(admin, names, calls))
    ensures After(admin, names, calls).inputs.Keys == names
  {
    if calls == [] {
      assert MaskedInputs(After(admin, names, [])) == {};
    } else {
      var before := After(admin, names, calls[..|calls| - 1]);
      PathsAreConserved(admin, names, calls[..|calls| - 1]);
      match calls[|calls| - 1] {
        case Masked(name) => MaskKeeps(admin, before, name);
        case Unmasked(name) => UnmaskKeeps(admin, before, name);
      }
    }
  }

  /** After every sequence of calls the upper bound in unmask never refuses: an unmask succeeds exactly
      for a masked input. A mask succeeds exactly for an unmasked input while a path is left, which is
      always so when there are no more inputs than configured paths. */
  lemma {:induction false} CallsSucceed(admin: int, names: set<string>, calls: seq<Call>, name: string)
    requires name in names
    ensures var p := After(admin, names, calls);
            name in p.inputs &&
            (UnmaskPath(admin, p, name).1 <==> p.inputs[name]) &&
            (|names| <= admin ==> (MaskPath(p, name).1 <==> !p.inputs[name]))
  {
    var p := After(admin, names, calls);
    PathsAreConserved(admin, names, calls);
    UnmaskKeeps(admin, p, name);
    if !p.inputs[name] {
      SubsetSize(MaskedInputs(p), names - {name});
    }
  }
}
