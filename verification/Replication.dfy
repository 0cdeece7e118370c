/** Who owns a packet while pipelines run and replicate it (pipeline.c, action.c). */
module Replication {
  import opened Bits

  type Image = seq<byte>

  /** An action by what it does to the packet and to the run of its pipeline. Actions whose outcome depends on
      state, such as elimination, appear with the outcome they had. */
  datatype Act =
    | Edit(change: Image -> Image)
    | Send
    | Stop
    | Hold
    | Repl(branches: seq<Pipe>)

  datatype Pipe = Pipe(acts: seq<Act>, masked: bool)

  /** Packets in memory, the next packet number, and what became of each packet: freed, handed over to a queue
      that will resume it, or dropped by everyone. Then the images sent. */
  datatype World = World(
    live: map<nat, Image>, next: nat, freed: multiset<nat>, handed: multiset<nat>, lost: multiset<nat>,
        sent: seq<Image>)

  ghost predicate Numbered(w: World) { forall id :: id in w.live ==> id < w.next }

  /** No packet but p and new ones has been touched. */
  ghost predicate Untouched(w: World, w': World, p: nat) {
    Numbered(w') && w.next <= w'.next &&
    forall id :: id in w.live && id != p ==> id in w'.live && w'.live[id] == w.live[id]
  }

  function Free(w: World, p: nat): World { w.(live := w.live - {p}, freed := w.freed + multiset{p}) }
  function Lose(w: World, p: nat): World { w.(lost := w.lost + multiset{p}) }
  function HandOver(w: World, p: nat): World { w.(handed := w.handed + multiset{p}) }
  function Change(w: World, p: nat, image: Image): World { w.(live := w.live[p := image]) }
  function Copy(w: World, p: nat): World
    requires p in w.live
  {
    w.(live := w.live[w.next := w.live[p]], next := w.next + 1)
  }

  // ----- running -----

  /** pipeline_process: an empty pipeline does not take the packet. */
  function Process(w: World, pipe: Pipe, p: nat, oam: Image -> bool): (w': World)
    requires Numbered(w) && p in w.live
    ensures Untouched(w, w', p)
    decreases pipe, |pipe.acts| + 1
  {
    if pipe.acts == [] then Lose(w, p) else RunFrom(w, pipe, 0, p, oam)
  }

  /** pipe_iterator_run from a position on; resuming a held packet is running from the next position. */
  function RunFrom(w: World, pipe: Pipe, pos: nat, p: nat, oam: Image -> bool): (w': World)
    requires Numbered(w) && pos <= |pipe.acts| && p in w.live
    ensures Untouched(w, w', p)
    decreases pipe, |pipe.acts| - pos
  {
    if pos == |pipe.acts| then Free(w, p)
    else
      match pipe.acts[pos]
      case Edit(change) => RunFrom(Change(w, p, change(w.live[p])), pipe, pos + 1, p, oam)
      case Send => RunFrom(w.(sent := w.sent + [w.live[p]]), pipe, pos + 1, p, oam)
      case Stop => Free(w, p)
      case Hold => HandOver(w, p)
      case Repl(branches) => Replicate(w, pipe.acts[pos], 0, p, oam)
  }

  /** The branches from the k-th on: the last gets the packet itself, the others copies, masked ones nothing
      unless the packet is OAM. */
  function Replicate(w: World, a: Act, k: nat, p: nat, oam: Image -> bool): (w': World)
    requires Numbered(w) && a.Repl? && k <= |a.branches| && p in w.live
    ensures Untouched(w, w', p)
    decreases a, |a.branches| - k
  {
    if k == |a.branches| then Lose(w, p)
    else if a.branches[k].masked && !oam(w.live[p])
    then (if k + 1 == |a.branches| then Free(w, p) else Replicate(w, a, k + 1, p, oam))
    else if k + 1 == |a.branches| then Process(w, a.branches[k], p, oam)
    else Replicate(Process(Copy(w, p), a.branches[k], w.next, oam), a, k + 1, p, oam)
  }

  // ----- what the branches ought to see -----

  /** The images sent when every branch works on a value of its own. */
  function Sends(pipe: Pipe, pos: nat, image: Image, oam: Image -> bool): seq<Image>
    requires pos <= |pipe.acts|
    decreases pipe, |pipe.acts| - pos
  {
    if pos == |pipe.acts| then []
    else
      match pipe.acts[pos]
      case Edit(change) => Sends(pipe, pos + 1, change(image), oam)
      case Send => [image] + Sends(pipe, pos + 1, image, oam)
      case Stop => []
      case Hold => []
      case Repl(branches) => BranchSends(pipe.acts[pos], 0, image, oam)
  }

  function BranchSends(a: Act, k: nat, image: Image, oam: Image -> bool): seq<Image>
    requires a.Repl? && k <= |a.branches|
    decreases a, |a.branches| - k
  {
    if k == |a.branches| then []
    else (if a.branches[k].masked && !oam(image) then [] else Sends(a.branches[k], 0, image, oam)) +
         BranchSends(a, k + 1, image, oam)
  }

  /** Every image sent by a real run, with its shared packets, is one that a run on separate values sends, in
      the same order: each unmasked branch starts with the incoming image and edits stay in their branch. */
  lemma {:induction false} RunSends(w: World, pipe: Pipe, pos: nat, p: nat, oam: Image -> bool)
    requires Numbered(w) && pos <= |pipe.acts| && p in w.live
    ensures RunFrom(w, pipe, pos, p, oam).sent == w.sent + Sends(pipe, pos, w.live[p], oam)
    decreases pipe, |pipe.acts| - pos
  {
    if pos < |pipe.acts| {
      match pipe.acts[pos]
      case Edit(change) => RunSends(Change(w, p, change(w.live[p])), pipe, pos + 1, p, oam);
      case Send => RunSends(w.(sent := w.sent + [w.live[p]]), pipe, pos + 1, p, oam);
      case Repl(branches) => ReplicateSends(w, pipe.acts[pos], 0, p, oam);
      case _ =>
    }
  }

  lemma {:induction false} ProcessSends(w: World, pipe: Pipe, p: nat, oam: Image -> bool)
    requires Numbered(w) && p in w.live
    ensures Process(w, pipe, p, oam).sent == w.sent + Sends(pipe, 0, w.live[p], oam)
    decreases pipe, |pipe.acts| + 1
  {
    if pipe.acts != [] { RunSends(w, pipe, 0, p, oam); }
  }

  lemma {:induction false} Regrouped(a: seq<Image>, b: seq<Image>, c: seq<Image>)
    ensures (a + b) + c == a + (b + c)
  {
  }

  lemma {:induction false} ReplicateSends(w: World, a: Act, k: nat, p: nat, oam: Image -> bool)
    requires Numbered(w) && a.Repl? && k <= |a.branches| && p in w.live
    ensures Replicate(w, a, k, p, oam).sent == w.sent + BranchSends(a, k, w.live[p], oam)
    decreases a, |a.branches| - k
  {
    if k < |a.branches| {
      var last, image := k + 1 == |a.branches|, w.live[p];
      if a.branches[k].masked && !oam(image) {
        if !last { ReplicateSends(w, a, k + 1, p, oam); }
      } else if last {
        ProcessSends(w, a.branches[k], p, oam);
      } else {
        ProcessSends(Copy(w, p), a.branches[k], w.next, oam);
        ReplicateSends(Process(Copy(w, p), a.branches[k], w.next, oam), a, k + 1, p, oam);
        Regrouped(w.sent, Sends(a.branches[k], 0, image, oam), BranchSends(a, k + 1, image, oam));
      }
    }
  }

  // ----- ownership -----

  /** The packets numbered from a up to b. */
  function New(a: nat, b: nat): multiset<nat>
    decreases b
  {
    if b <= a then multiset{} else New(a, b - 1) + multiset{b - 1}
  }

  lemma {:induction false} NewJoin(a: nat, b: nat, c: nat)
    requires a <= b <= c
    ensures New(a, b) + New(b, c) == New(a, c)
    decreases c
  {
    if b < c { NewJoin(a, b, c - 1); }
  }

  lemma {:induction false} NewFirst(a: nat, c: nat)
    requires a < c
    ensures multiset{a} + New(a + 1, c) == New(a, c)
  {
    NewJoin(a, a + 1, c);
    assert New(a, a + 1) == multiset{a};
  }

  function Settled(w: World): multiset<nat> { w.freed + w.handed + w.lost }

  /** The packet and every copy made of it is freed, handed over or lost, once. */
  ghost predicate Settles(w: World, w': World, p: nat) {
    w.next <= w'.next && Settled(w') == Settled(w) + multiset{p} + New(w.next, w'.next)
  }

  lemma {:induction false} RunSettles(w: World, pipe: Pipe, pos: nat, p: nat, oam: Image -> bool)
    requires Numbered(w) && pos <= |pipe.acts| && p in w.live
    ensures Settles(w, RunFrom(w, pipe, pos, p, oam), p)
    decreases pipe, |pipe.acts| - pos
  {
    if pos < |pipe.acts| {
      match pipe.acts[pos]
      case Edit(change) => RunSettles(Change(w, p, change(w.live[p])), pipe, pos + 1, p, oam);
      case Send => RunSettles(w.(sent := w.sent + [w.live[p]]), pipe, pos + 1, p, oam);
      case Repl(branches) => ReplicateSettles(w, pipe.acts[pos], 0, p, oam);
      case _ =>
    }
  }

  lemma {:induction false} CopySettles(w: World, w1: World, w2: World, p: nat)
    requires p in w.live && Settles(Copy(w, p), w1, w.next) && Settles(w1, w2, p)
    ensures Settles(w, w2, p)
  {
    NewFirst(w.next, w1.next);
    NewJoin(w.next, w1.next, w2.next);
    BagChain(Settled(w), multiset{w.next}, New(w.next + 1, w1.next), multiset{p}, New(w1.next, w2.next));
  }

  lemma {:induction false} BagChain(s: multiset<nat>, a: multiset<nat>, b: multiset<nat>, c: multiset<nat>,
                                    d: multiset<nat>)
    ensures s + a + b + c + d == s + c + (a + b + d)
  {
  }

  lemma {:induction false} ReplicateSettles(w: World, a: Act, k: nat, p: nat, oam: Image -> bool)
    requires Numbered(w) && a.Repl? && k <= |a.branches| && p in w.live
    ensures Settles(w, Replicate(w, a, k, p, oam), p)
    decreases a, |a.branches| - k
  {
    if k < |a.branches| {
      var last := k + 1 == |a.branches|;
      if a.branches[k].masked && !oam(w.live[p]) {
        if !last { ReplicateSettles(w, a, k + 1, p, oam); }
      } else if last {
        if a.branches[k].acts != [] { RunSettles(w, a.branches[k], 0, p, oam); }
      } else {
        var w1 := Process(Copy(w, p), a.branches[k], w.next, oam);
        if a.branches[k].acts != [] { RunSettles(Copy(w, p), a.branches[k], 0, w.next, oam); }
        ReplicateSettles(w1, a, k + 1, p, oam);
        CopySettles(w, w1, Replicate(w1, a, k + 1, p, oam), p);
      }
    }
  }

  // ----- nothing is lost -----

  /** Every pipeline and every replication that the packet reaches has something to do. */
  predicate Takes(pipe: Pipe, pos: nat, image: Image, oam: Image -> bool)
    requires pos <= |pipe.acts|
    decreases pipe, |pipe.acts| - pos
  {
    pos == |pipe.acts| ||
    match pipe.acts[pos]
    case Edit(change) => Takes(pipe, pos + 1, change(image), oam)
    case Send => Takes(pipe, pos + 1, image, oam)
    case Repl(branches) => branches != [] && BranchesTake(pipe.acts[pos], 0, image, oam)
    case _ => true
  }

  predicate BranchesTake(a: Act, k: nat, image: Image, oam: Image -> bool)
    requires a.Repl? && k <= |a.branches|
    decreases a, |a.branches| - k
  {
    k == |a.branches| ||
    (((a.branches[k].masked && !oam(image)) || (a.branches[k].acts != [] && Takes(a.branches[k], 0, image, oam))) &&
     BranchesTake(a, k + 1, image, oam))
  }

  /** No packet is lost exactly when no empty pipeline and no empty replication is reached. */
  lemma {:induction false} NothingLost(w: World, pipe: Pipe, pos: nat, p: nat, oam: Image -> bool)
    requires Numbered(w) && pos <= |pipe.acts| && p in w.live
    ensures var w' := RunFrom(w, pipe, pos, p, oam);
            w.lost <= w'.lost && (w'.lost == w.lost <==> Takes(pipe, pos, w.live[p], oam))
    decreases pipe, |pipe.acts| - pos
  {
    if pos < |pipe.acts| {
      match pipe.acts[pos]
      case Edit(change) => NothingLost(Change(w, p, change(w.live[p])), pipe, pos + 1, p, oam);
      case Send => NothingLost(w.(sent := w.sent + [w.live[p]]), pipe, pos + 1, p, oam);
      case Repl(branches) =>
        if branches == [] { assert p in Lose(w, p).lost - w.lost; } else { BranchesLose(w, pipe.acts[pos], 0, p, oam); }
      case _ =>
    }
  }

  lemma {:induction false} ProcessLoses(w: World, pipe: Pipe, p: nat, oam: Image -> bool)
    requires Numbered(w) && p in w.live
    ensures var w' := Process(w, pipe, p, oam);
            w.lost <= w'.lost && (w'.lost == w.lost <==> pipe.acts != [] && Takes(pipe, 0, w.live[p], oam))
    decreases pipe, |pipe.acts| + 1
  {
    if pipe.acts == [] { assert p in Lose(w, p).lost - w.lost; } else { NothingLost(w, pipe, 0, p, oam); }
  }

  lemma {:induction false} BranchesLose(w: World, a: Act, k: nat, p: nat, oam: Image -> bool)
    requires Numbered(w) && a.Repl? && k < |a.branches| && p in w.live
    ensures var w' := Replicate(w, a, k, p, oam);
            w.lost <= w'.lost && (w'.lost == w.lost <==> BranchesTake(a, k, w.live[p], oam))
    decreases a, |a.branches| - k
  {
    var last, image := k + 1 == |a.branches|, w.live[p];
    if a.branches[k].masked && !oam(image) {
      if !last { BranchesLose(w, a, k + 1, p, oam); }
    } else if last {
      ProcessLoses(w, a.branches[k], p, oam);
    } else {
      ProcessLoses(Copy(w, p), a.branches[k], w.next, oam);
      BranchesLose(Process(Copy(w, p), a.branches[k], w.next, oam), a, k + 1, p, oam);
    }
  }

  // ----- the code -----

  class Runner {
    var live: map<nat, Image>
    var next: nat
    var freed: multiset<nat>
    var handed: multiset<nat>
    var lost: multiset<nat>
    var sent: seq<Image>

    function View(): World
      reads this
    {
      World(live, next, freed, handed, lost, sent)
    }

    method DeletePacket(p: nat)
      modifies this
      ensures View() == Free(old(View()), p)
    {
      live := live - {p};
      freed := freed + multiset{p};
    }

    method CopyPacket(p: nat) returns (q: nat)
      requires p in live
      modifies this
      ensures q == old(next) && View() == Copy(old(View()), p)
    {
      q := next;
      live := live[q := live[p]];
      next := next + 1;
    }

    method ProcessPipe(pipe: Pipe, p: nat, oam: Image -> bool)
      requires Numbered(View()) && p in live
      modifies this
      ensures View() == Process(old(View()), pipe, p, oam)
      decreases pipe, |pipe.acts| + 1
    {
      if pipe.acts == [] {
        lost := lost + multiset{p};
        return;
      }
      RunIterator(pipe, 0, p, oam);
    }

    /** The loop of an iterator, which frees the packet unless an action keeps or passes it on. */
    method RunIterator(pipe: Pipe, start: nat, p: nat, oam: Image -> bool)
      requires Numbered(View()) && start <= |pipe.acts| && p in live
      modifies this
      ensures View() == RunFrom(old(View()), pipe, start, p, oam)
      decreases pipe, |pipe.acts| - start
    {
      var pos := start;
      while pos < |pipe.acts|
        invariant start <= pos <= |pipe.acts| && Numbered(View()) && p in live
        invariant RunFrom(View(), pipe, pos, p, oam) == RunFrom(old(View()), pipe, start, p, oam)
      {
        match pipe.acts[pos] {
          case Edit(change) => live := live[p := change(live[p])];
          case Send => sent := sent + [live[p]];
          case Stop =>
            DeletePacket(p);
            return;
          case Hold =>
            handed := handed + multiset{p};
            return;
          case Repl(branches) =>
            ReplExecute(pipe.acts[pos], p, oam);
            return;
        }
        pos := pos + 1;
      }
      DeletePacket(p);
    }

    /** Whether the packet is OAM is found out at the first masked branch and remembered. */
    method ReplExecute(a: Act, p: nat, oam: Image -> bool)
      requires Numbered(View()) && a.Repl? && p in live
      modifies this
      ensures View() == Replicate(old(View()), a, 0, p, oam)
      decreases a, |a.branches| + 1
    {
      var known, isOam := false, false;
      var k := 0;
      if a.branches == [] { lost := lost + multiset{p}; }
      while k < |a.branches|
        invariant 0 <= k <= |a.branches|
        invariant k < |a.branches| ==> Numbered(View()) && p in live && (known ==> isOam == oam(live[p]))
        invariant k < |a.branches| ==> Replicate(View(), a, k, p, oam) == Replicate(old(View()), a, 0, p, oam)
        invariant k == |a.branches| ==> View() == Replicate(old(View()), a, 0, p, oam)
      {
        if a.branches[k].masked {
          if !known { known, isOam := true, oam(live[p]); }
          if !isOam {
            if k + 1 == |a.branches| { DeletePacket(p); }
            k := k + 1;
            continue;
          }
        }
        var q := p;
        if k + 1 < |a.branches| { q := CopyPacket(p); }
        ProcessPipe(a.branches[k], q, oam);
        k := k + 1;
      }
    }
  }

  // ----- who has what -----

  /** How many packets are handed over to a queue. */
  function Holds(pipe: Pipe, pos: nat, image: Image, oam: Image -> bool): nat
    requires pos <= |pipe.acts|
    decreases pipe, |pipe.acts| - pos
  {
    if pos == |pipe.acts| then 0
    else
      match pipe.acts[pos]
      case Edit(change) => Holds(pipe, pos + 1, change(image), oam)
      case Send => Holds(pipe, pos + 1, image, oam)
      case Stop => 0
      case Hold => 1
      case Repl(branches) => BranchHolds(pipe.acts[pos], 0, image, oam)
  }

  function BranchHolds(a: Act, k: nat, image: Image, oam: Image -> bool): nat
    requires a.Repl? && k <= |a.branches|
    decreases a, |a.branches| - k
  {
    if k == |a.branches| then 0
    else (if a.branches[k].masked && !oam(image) then 0 else Holds(a.branches[k], 0, image, oam)) +
         BranchHolds(a, k + 1, image, oam)
  }

  /** A packet is handed over for every hold that is reached, and for nothing else. */
  lemma {:induction false} RunHands(w: World, pipe: Pipe, pos: nat, p: nat, oam: Image -> bool)
    requires Numbered(w) && pos <= |pipe.acts| && p in w.live
    ensures |RunFrom(w, pipe, pos, p, oam).handed| == |w.handed| + Holds(pipe, pos, w.live[p], oam)
    decreases pipe, |pipe.acts| - pos
  {
    if pos < |pipe.acts| {
      match pipe.acts[pos]
      case Edit(change) => RunHands(Change(w, p, change(w.live[p])), pipe, pos + 1, p, oam);
      case Send => RunHands(w.(sent := w.sent + [w.live[p]]), pipe, pos + 1, p, oam);
      case Repl(branches) => ReplicateHands(w, pipe.acts[pos], 0, p, oam);
      case _ =>
    }
  }

  lemma {:induction false} ProcessHands(w: World, pipe: Pipe, p: nat, oam: Image -> bool)
    requires Numbered(w) && p in w.live
    ensures |Process(w, pipe, p, oam).handed| == |w.handed| + Holds(pipe, 0, w.live[p], oam)
    decreases pipe, |pipe.acts| + 1
  {
    if pipe.acts != [] { RunHands(w, pipe, 0, p, oam); }
  }

  lemma {:induction false} ReplicateHands(w: World, a: Act, k: nat, p: nat, oam: Image -> bool)
    requires Numbered(w) && a.Repl? && k <= |a.branches| && p in w.live
    ensures |Replicate(w, a, k, p, oam).handed| == |w.handed| + BranchHolds(a, k, w.live[p], oam)
    decreases a, |a.branches| - k
  {
    if k < |a.branches| {
      var last, image := k + 1 == |a.branches|, w.live[p];
      if a.branches[k].masked && !oam(image) {
        if !last { ReplicateHands(w, a, k + 1, p, oam); }
      } else if last {
        ProcessHands(w, a.branches[k], p, oam);
      } else {
        ProcessHands(Copy(w, p), a.branches[k], w.next, oam);
        ReplicateHands(Process(Copy(w, p), a.branches[k], w.next, oam), a, k + 1, p, oam);
      }
    }
  }

  /** What was handed over or lost is in memory, what was freed is not. */
  ghost predicate Sane(w: World) {
    Numbered(w) && (forall id :: id in w.live ==> id !in w.freed) && (forall id :: id in w.handed ==> id in w.live) &&
    (forall id :: id in w.lost ==> id in w.live) && forall id :: id in w.freed ==> id < w.next
  }

  predicate Open(w: World, p: nat) { p in w.live && p !in w.handed && p !in w.lost }

  lemma {:induction false} EndIsSane(w: World, p: nat)
    requires Sane(w) && Open(w, p)
    ensures Sane(Free(w, p)) && Sane(HandOver(w, p)) && Sane(Lose(w, p))
  {
  }

  lemma {:induction false} ChangeIsSane(w: World, p: nat, image: Image, sent: seq<Image>)
    requires Sane(w) && Open(w, p)
    ensures Sane(Change(w, p, image)) && Open(Change(w, p, image), p)
    ensures Sane(w.(sent := sent)) && Open(w.(sent := sent), p)
  {
  }

  /** No run frees a packet that a queue holds, nor hands over one that was freed. */
  lemma {:induction false} RunIsSane(w: World, pipe: Pipe, pos: nat, p: nat, oam: Image -> bool)
    requires Sane(w) && pos <= |pipe.acts| && Open(w, p)
    ensures Sane(RunFrom(w, pipe, pos, p, oam))
    decreases pipe, |pipe.acts| - pos
  {
    if pos == |pipe.acts| {
      EndIsSane(w, p);
    } else {
      match pipe.acts[pos]
      case Edit(change) =>
        ChangeIsSane(w, p, change(w.live[p]), []);
        RunIsSane(Change(w, p, change(w.live[p])), pipe, pos + 1, p, oam);
      case Send =>
        ChangeIsSane(w, p, [], w.sent + [w.live[p]]);
        RunIsSane(w.(sent := w.sent + [w.live[p]]), pipe, pos + 1, p, oam);
      case Repl(branches) => ReplicateIsSane(w, pipe.acts[pos], 0, p, oam);
      case _ => EndIsSane(w, p);
    }
  }

  lemma {:induction false} ProcessIsSane(w: World, pipe: Pipe, p: nat, oam: Image -> bool)
    requires Sane(w) && Open(w, p)
    ensures Sane(Process(w, pipe, p, oam))
    decreases pipe, |pipe.acts| + 1
  {
    EndIsSane(w, p);
    if pipe.acts != [] { RunIsSane(w, pipe, 0, p, oam); }
  }

  lemma {:induction false} CopyIsSane(w: World, p: nat)
    requires Sane(w) && Open(w, p)
    ensures Sane(Copy(w, p)) && Open(Copy(w, p), w.next)
  {
  }

  lemma {:induction false} NewBound(a: nat, b: nat, p: nat)
    requires p < a
    ensures New(a, b)[p] == 0
    decreases b
  {
    if b > a { NewBound(a, b - 1, p); }
  }

  lemma {:induction false} StillOpen(w: World, pipe: Pipe, p: nat, oam: Image -> bool)
    requires Sane(w) && Open(w, p)
    ensures Open(Process(Copy(w, p), pipe, w.next, oam), p)
  {
    var v := Copy(w, p);
    if pipe.acts != [] { RunSettles(v, pipe, 0, w.next, oam); } else { assert New(v.next, v.next) == multiset{}; }
    var u := Process(v, pipe, w.next, oam);
    NewBound(v.next, u.next, p);
    assert Settled(u)[p] == Settled(w)[p] == w.freed[p] + w.handed[p] + w.lost[p] == 0;
  }

  lemma {:induction false} ReplicateIsSane(w: World, a: Act, k: nat, p: nat, oam: Image -> bool)
    requires Sane(w) && a.Repl? && k <= |a.branches| && Open(w, p)
    ensures Sane(Replicate(w, a, k, p, oam))
    decreases a, |a.branches| - k
  {
    EndIsSane(w, p);
    if k < |a.branches| {
      var last := k + 1 == |a.branches|;
      if a.branches[k].masked && !oam(w.live[p]) {
        if !last { ReplicateIsSane(w, a, k + 1, p, oam); }
      } else if last {
        ProcessIsSane(w, a.branches[k], p, oam);
      } else {
        CopyIsSane(w, p);
        ProcessIsSane(Copy(w, p), a.branches[k], w.next, oam);
        StillOpen(w, a.branches[k], p, oam);
        ReplicateIsSane(Process(Copy(w, p), a.branches[k], w.next, oam), a, k + 1, p, oam);
      }
    }
  }
}
