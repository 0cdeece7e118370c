/** The packet ordering function (pof.c, after section 4.3 of RFC 9550). Numbers are compared as they are, so
    everything here is about runs in which they do not wrap. */
module PacketOrdering {
  import opened Basics
  import opened SortedQueues

  /** A held packet, filed under its sequence number: its identity and the time until which it may be held. */
  datatype Ticket = Ticket(id: nat, time: int)
  type Elem = Entry<Ticket>

  // ----- forwarding -----

  function Max(a: int, b: int): int { if a < b then b else a }

  /** What is left, the highest number sent, what was sent, and whether the expected number was among it. */
  datatype Sent = Sent(queue: seq<Elem>, last: int, out: seq<Elem>, expected: bool)

  /** Send from the head as long as its number is not beyond the expected one. */
  function Drain(q: seq<Elem>, last: int): Sent
    decreases |q|
  {
    if q == [] || q[0].num > last + 1 then Sent(q, last, [], false)
    else
      var r := Drain(q[1..], Max(last, q[0].num));
      Sent(r.queue, r.last, [q[0]] + r.out, r.expected || q[0].num == last + 1)
  }

  /** After a timeout one packet goes first, whatever its number. */
  function DrainAfter(q: seq<Elem>, last: int, k: nat): Sent
    requires k < |q|
  {
    var r := Drain(Removed(q, k), Max(last, q[k].num));
    Sent(r.queue, r.last, [q[k]] + r.out, true)
  }

  /** The highest number sent after n packets. */
  function LastAfter(last: int, out: seq<Elem>, n: nat): int
    requires n <= |out|
  {
    if n == 0 then last else Max(LastAfter(last, out, n - 1), out[n - 1].num)
  }

  /** Packet i is not beyond the number expected when it was sent. */
  predicate NoSkip(last: int, out: seq<Elem>, i: nat)
    requires i < |out|
  {
    out[i].num <= LastAfter(last, out, i) + 1
  }

  lemma {:induction false} LastAfterCons(last: int, e: Elem, out: seq<Elem>, n: nat)
    requires n <= |out|
    ensures LastAfter(last, [e] + out, n + 1) == LastAfter(Max(last, e.num), out, n)
    decreases n
  {
    if n > 0 { LastAfterCons(last, e, out, n - 1); }
  }

  lemma {:induction false} NoSkipCons(last: int, e: Elem, out: seq<Elem>)
    requires forall i :: 0 <= i < |out| ==> NoSkip(Max(last, e.num), out, i)
    ensures forall i :: 1 <= i < |out| + 1 ==> NoSkip(last, [e] + out, i)
  {
    forall i | 1 <= i < |out| + 1
      ensures NoSkip(last, [e] + out, i)
    {
      assert NoSkip(Max(last, e.num), out, i - 1);
      LastAfterCons(last, e, out, i - 1);
    }
  }

  /** Nothing is lost or sent twice, no packet from the given one on skips a number, and only numbers beyond
      the expected one stay. */
  ghost predicate Forwards(q: seq<Elem>, last: int, r: Sent, from: nat) {
    Sorted(r.queue) && multiset(q) == multiset(r.out) + multiset(r.queue) &&
    (forall i :: 0 <= i < |r.queue| ==> r.queue[i].num > r.last + 1) &&
    (forall i :: from <= i < |r.out| ==> NoSkip(last, r.out, i)) && r.last == LastAfter(last, r.out, |r.out|)
  }

  lemma {:induction false} ForwardsFirst(q: seq<Elem>, e: Elem, rest: seq<Elem>, last: int, r: Sent, expected: bool)
    requires multiset(q) == multiset(rest) + multiset{e} && Forwards(rest, Max(last, e.num), r, 0)
    ensures Forwards(q, last, Sent(r.queue, r.last, [e] + r.out, expected), if e.num <= last + 1 then 0 else 1)
  {
    NoSkipCons(last, e, r.out);
    LastAfterCons(last, e, r.out, |r.out|);
    assert multiset([e] + r.out) == multiset{e} + multiset(r.out);
  }

  lemma {:induction false} HeadBag(q: seq<Elem>)
    requires q != []
    ensures multiset(q) == multiset(q[1..]) + multiset{q[0]}
  {
    assert q == [q[0]] + q[1..];
  }

  lemma {:induction false} DrainSends(q: seq<Elem>, last: int)
    requires Sorted(q)
    ensures Forwards(q, last, Drain(q, last), 0)
    decreases |q|
  {
    if q != [] && q[0].num <= last + 1 {
      DrainSends(q[1..], Max(last, q[0].num));
      HeadBag(q);
      ForwardsFirst(q, q[0], q[1..], last, Drain(q[1..], Max(last, q[0].num)), Drain(q, last).expected);
    }
  }

  /** A timeout lets at most the first packet skip. */
  lemma {:induction false} TimeoutSends(q: seq<Elem>, last: int, k: nat)
    requires Sorted(q) && k < |q|
    ensures Forwards(q, last, DrainAfter(q, last, k), 1)
  {
    RemoveKeeps(q, k);
    DrainSends(Removed(q, k), Max(last, q[k].num));
    ForwardsFirst(q, q[k], Removed(q, k), last, Drain(Removed(q, k), Max(last, q[k].num)), true);
  }

  // ----- order after a timeout -----

  lemma {:induction false} DrainInOrder(q: seq<Elem>, last: int, low: int)
    requires Sorted(q) && (q != [] ==> low <= q[0].num)
    ensures Sorted(Drain(q, last).out) && forall i :: 0 <= i < |Drain(q, last).out| ==> low <= Drain(q, last).out[i].num
    decreases |q|
  {
    if q != [] && q[0].num <= last + 1 { DrainInOrder(q[1..], Max(last, q[0].num), q[0].num); }
  }

  /** A timeout sends in order exactly when the packet it starts with has the lowest number in the queue. */
  lemma {:induction false} TimeoutInOrder(q: seq<Elem>, last: int, k: nat)
    requires Sorted(q) && k < |q|
    ensures Sorted(DrainAfter(q, last, k).out) <==> q[k].num == q[0].num
  {
    var rest := Removed(q, k);
    var r := Drain(rest, Max(last, q[k].num));
    RemoveKeeps(q, k);
    var out := DrainAfter(q, last, k).out;
    if q[k].num == q[0].num {
      DrainInOrder(rest, Max(last, q[k].num), q[k].num);
    } else {
      assert q[0].num <= q[k].num && rest[0] == q[0];
      assert r.out[0] == q[0];
      assert out[0] == q[k] && out[1] == q[0];
    }
  }

  // ----- deadlines -----

  /** Of the first n packets, the last whose deadline differs from that of the packet before it. */
  function LastChange(q: seq<Elem>, n: nat): (r: Option<nat>)
    requires n <= |q|
    ensures r.Some? ==> 0 < r.value < n
  {
    if n <= 1 then None
    else if q[n - 1].item.time != q[n - 2].item.time then Some(n - 1)
    else LastChange(q, n - 1)
  }

  /** The packet chosen for a timeout, if there is one, starts the run of equal deadlines at the end. */
  lemma {:induction false} LastChangeRuns(q: seq<Elem>, n: nat, i: nat)
    requires i < n <= |q| && (LastChange(q, n).Some? ==> LastChange(q, n).value <= i)
    ensures q[i].item.time == q[n - 1].item.time
    decreases n
  {
    if i < n - 1 { LastChangeRuns(q, n - 1, i); }
  }

  /** With numbers and neighbouring deadlines all different, a timeout sends the highest number first and then
      everything else, out of order. */
  lemma {:induction false} HighestGoesFirst(q: seq<Elem>, last: int)
    requires Sorted(q) && |q| >= 2 && q[|q| - 1].item.time != q[|q| - 2].item.time && q[0].num < q[|q| - 1].num
    ensures LastChange(q, |q|) == Some(|q| - 1) && !Sorted(DrainAfter(q, last, |q| - 1).out)
  {
    TimeoutInOrder(q, last, |q| - 1);
  }

  // ----- the object -----

  ghost predicate DistinctIds(q: seq<Elem>) {
    forall i, j :: 0 <= i < j < |q| ==> q[i].item.id != q[j].item.id
  }

  function IndexOf(q: seq<Elem>, id: nat, i: nat): (k: nat)
    requires i <= |q|
    ensures i <= k <= |q| && (k < |q| ==> q[k].item.id == id)
    decreases |q| - i
  {
    if i == |q| || q[i].item.id == id then i else IndexOf(q, id, i + 1)
  }

  lemma {:induction false} IndexOfAt(q: seq<Elem>, k: nat, i: nat)
    requires DistinctIds(q) && i <= k < |q|
    ensures IndexOf(q, q[k].item.id, i) == k
    decreases k - i
  {
    if i < k { IndexOfAt(q, k, i + 1); }
  }

  /** Where a call of pof_try_forward starts. */
  function StartAt(q: seq<Elem>, takeAny: bool, next: Option<nat>, timeout: bool): nat {
    if timeout && !takeAny && next.Some? && IndexOf(q, next.value, 0) < |q| then IndexOf(q, next.value, 0) else 0
  }

  function TryFrom(q: seq<Elem>, last: int, timeout: bool, k: nat): Sent {
    if timeout && k < |q| then DrainAfter(q, last, k) else Drain(q, last)
  }

  function Then(out: seq<Elem>, expected: bool, r: Sent): Sent {
    Sent(r.queue, r.last, out + r.out, expected || r.expected)
  }

  method FindPlace(q: seq<Elem>, num: int) returns (i: nat)
    ensures i == PlaceFor(q, num, 0)
  {
    i := 0;
    while i < |q| && q[i].num < num
      invariant i <= |q| && PlaceFor(q, num, 0) == PlaceFor(q, num, i)
    {
      i := i + 1;
    }
  }

  lemma {:induction false} InsertIds(q: seq<Elem>, e: Elem)
    requires DistinctIds(q) && forall i :: 0 <= i < |q| ==> q[i].item.id != e.item.id
    ensures DistinctIds(Inserted(q, e))
  {
  }

  datatype Verdict = Pass | Drop | Hold

  class Pof {
    var queue: seq<Elem>
    var queueLen: int
    var lastSent: int
    var takeAny: bool
    var next: Option<nat>
    const maxLen: int

    ghost predicate Valid()
      reads this
    {
      queueLen == |queue| && Sorted(queue) && DistinctIds(queue) &&
      (next.Some? ==> IndexOf(queue, next.value, 0) < |queue|)
    }

    constructor (maxLen: int)
      ensures Valid() && queue == [] && lastSent == 0 && takeAny && next == None && this.maxLen == maxLen
    {
      queue, queueLen, lastSent, takeAny, next := [], 0, 0, true, None;
      this.maxLen := maxLen;
    }

    /** Hold the packet, or drop it when the buffer is full; tell whether the worker is to look at the queue. OAM
        packets go on at once. */
    method Insert(e: Elem, oam: bool) returns (verdict: Verdict, inOrder: bool)
      requires Valid() && forall i :: 0 <= i < |queue| ==> queue[i].item.id != e.item.id
      modifies this`queue, this`queueLen
      ensures Valid()
      ensures verdict == if oam then Pass else if old(|queue|) < maxLen then Hold else Drop
      ensures queue == if verdict == Hold then Inserted(old(queue), e) else old(queue)
      ensures inOrder <==> verdict == Hold && (e.num <= lastSent + 1 || takeAny)
    {
      if oam { return Pass, false; }
      if queueLen >= maxLen { return Drop, false; }
      var i := FindPlace(queue, e.num);
      InsertSorts(queue, e);
      InsertIds(queue, e);
      if next.Some? { StillThere(queue, e, next.value); }
      queue := queue[..i] + [e] + queue[i..];
      queueLen := queueLen + 1;
      return Hold, e.num <= lastSent + 1 || takeAny;
    }

    method PopItem(e: Elem, ghost k: nat)
      requires queueLen == |queue| && Sorted(queue) && DistinctIds(queue) && k < |queue| && queue[k] == e
      modifies this`queue, this`queueLen
      ensures queue == Removed(old(queue), k) && queueLen == |queue| && Sorted(queue) && DistinctIds(queue)
    {
      var i := 0;
      IndexOfAt(queue, k, 0);
      RemoveKeeps(queue, k);
      while i < |queue| && queue[i].item.id != e.item.id
        invariant 0 <= i <= k && IndexOf(queue, e.item.id, 0) == IndexOf(queue, e.item.id, i)
      {
        i := i + 1;
      }
      queue := queue[..i] + queue[i + 1..];
      queueLen := queueLen - 1;
    }

    /** The mark never goes back. */
    method Forward(e: Elem)
      modifies this`lastSent
      ensures lastSent == Max(old(lastSent), e.num)
    {
      if e.num > lastSent { lastSent := e.num; }
    }

    method SendAt(k: nat)
      requires queueLen == |queue| && Sorted(queue) && DistinctIds(queue) && k < |queue|
      modifies this`queue, this`queueLen, this`lastSent
      ensures queue == Removed(old(queue), k) && lastSent == Max(old(lastSent), old(queue)[k].num)
      ensures queueLen == |queue| && Sorted(queue) && DistinctIds(queue)
    {
      Forward(queue[k]);
      PopItem(queue[k], k);
    }

    /** Send this packet if it is due or a timeout forces it. */
    method SendDue(pkt: nat, timeout: bool, ghost out: seq<Elem>, ghost was: bool)
      returns (sent: bool, ghost expected: bool)
      requires queueLen == |queue| && Sorted(queue) && DistinctIds(queue) && pkt < |queue| && (timeout || pkt == 0)
      requires takeAny ==> !was
      modifies this`queue, this`queueLen, this`lastSent, this`takeAny
      ensures queueLen == |queue| && Sorted(queue) && DistinctIds(queue)
      ensures takeAny <==> old(takeAny) && !expected
      ensures !sent ==>
        queue == old(queue) && expected == was && lastSent == old(lastSent) &&
        TryFrom(queue, lastSent, timeout, pkt) == Sent(queue, lastSent, [], false)
      ensures sent ==>
        |queue| == old(|queue|) - 1 && (was ==> expected) &&
        Then(out, was, TryFrom(old(queue), old(lastSent), timeout, pkt)) ==
        Then(out + [old(queue)[pkt]], expected, TryFrom(queue, lastSent, false, 0))
    {
      var e := queue[pkt];
      sent, expected := true, was || timeout || e.num == lastSent + 1;
      if e.num == lastSent + 1 || timeout {
        takeAny := false;
      } else if e.num > lastSent + 1 {
        return false, was;
      }
      TryNext(out, was, expected, queue, lastSent, timeout, pkt);
      SendAt(pkt);
    }

    /** Forward what is due. */
    method TryForward(event: bool) returns (out: seq<Elem>)
      requires Valid()
      modifies this`queue, this`queueLen, this`lastSent, this`takeAny
      ensures queueLen == |queue| && Sorted(queue) && DistinctIds(queue)
      ensures var r := TryFrom(old(queue), old(lastSent), event, StartAt(old(queue), old(takeAny), old(next), event));
              queue == r.queue && lastSent == r.last && out == r.out && (takeAny <==> old(takeAny) && !r.expected)
    {
      var timeout := event;
      out := [];
      var pkt: nat := 0;
      if timeout && !takeAny && next.Some? { pkt := IndexOf(queue, next.value, 0); }
      ghost var r, expected := TryFrom(queue, lastSent, timeout, pkt), false;
      while queueLen > 0
        invariant queueLen == |queue| && Sorted(queue) && DistinctIds(queue)
        invariant queue != [] ==> pkt < |queue|
        invariant !timeout ==> pkt == 0
        invariant r == Then(out, expected, TryFrom(queue, lastSent, timeout, pkt))
        invariant takeAny <==> old(takeAny) && !expected
        decreases queueLen
      {
        var e := queue[pkt];
        var sent;
        sent, expected := SendDue(pkt, timeout, out, expected);
        if !sent { break; }
        out := out + [e];
        timeout := false;
        pkt := 0;
      }
    }

    /** Meant to find the earliest deadline; finds that of the packet with the highest number. */
    method GetNextDeadline() returns (deadline: Option<int>)
      requires queueLen == |queue| && Sorted(queue) && DistinctIds(queue)
      modifies this`next
      ensures Valid() && next == NextOf(queue)
      ensures deadline == if queue == [] then None else Some(queue[|queue| - 1].item.time)
    {
      next := None;
      if queueLen == 0 { return None; }
      var ret := queue[0].item.time;
      var i := 0;
      while i < |queue|
        invariant 0 <= i <= |queue|
        invariant ret == if i == 0 then queue[0].item.time else queue[i - 1].item.time
        invariant next == var c := LastChange(queue, i); if c.None? then None else Some(queue[c.value].item.id)
      {
        if queue[i].item.time != ret {
          ret := queue[i].item.time;
          next := Some(queue[i].item.id);
        }
        i := i + 1;
      }
      var c := LastChange(queue, |queue|);
      if c.Some? { IndexOfAt(queue, c.value, 0); }
      return Some(ret);
    }

    /** Everything held is dropped, the mark stays. */
    method Reset()
      requires queueLen == |queue| && Sorted(queue) && DistinctIds(queue)
      modifies this`queue, this`queueLen, this`takeAny
      ensures queue == [] && queueLen == 0 && takeAny
    {
      while queue != []
        invariant queueLen == |queue| && Sorted(queue) && DistinctIds(queue)
        decreases |queue|
      {
        PopItem(queue[0], 0);
      }
      takeAny := true;
    }

    function View(): State
      reads this
    {
      State(queue, lastSent, takeAny, next)
    }

    /** The worker, woken by an insertion. */
    method Wake(inOrder: bool, timeout: bool) returns (out: seq<Elem>)
      requires Valid()
      modifies this
      ensures Valid()
      ensures Log(View(), out) == if inOrder then Woken(old(View()), timeout) else Log(Looked(old(View())), [])
    {
      out := [];
      if inOrder { out := TryForward(timeout); }
      var deadline := GetNextDeadline();
    }

    /** The worker, after a deadline or a long silence. */
    method Expire() returns (out: seq<Elem>)
      requires Valid()
      modifies this
      ensures Valid()
      ensures Log(View(), out) == Expired(old(View()))
    {
      out := [];
      if queueLen != 0 { out := TryForward(true); } else { Reset(); }
      var deadline := GetNextDeadline();
    }
  }

  datatype State = State(queue: seq<Elem>, last: int, takeAny: bool, next: Option<nat>)
  datatype Log = Log(state: State, out: seq<Elem>)

  function NextOf(q: seq<Elem>): Option<nat> {
    var c := LastChange(q, |q|);
    if c.None? then None else Some(q[c.value].item.id)
  }

  function Looked(s: State): State { s.(next := NextOf(s.queue)) }

  function Woken(s: State, timeout: bool): Log {
    var r := TryFrom(s.queue, s.last, timeout, StartAt(s.queue, s.takeAny, s.next, timeout));
    Log(Looked(State(r.queue, r.last, s.takeAny && !r.expected, s.next)), r.out)
  }

  function Expired(s: State): Log {
    if s.queue != [] then Woken(s, true) else Log(Looked(s.(takeAny := true)), [])
  }

  // ----- runs -----

  datatype Event = Put(e: Elem) | Wake(inOrder: bool, timeout: bool) | Expire

  function After(s: State, ev: Event, maxLen: int): Log {
    match ev
    case Put(e) => Log(if |s.queue| < maxLen then s.(queue := Inserted(s.queue, e)) else s, [])
    case Wake(inOrder, timeout) => if inOrder then Woken(s, timeout) else Log(Looked(s), [])
    case Expire => Expired(s)
  }

  /** State and output after n events. */
  function Run(s: State, events: seq<Event>, maxLen: int, n: nat): Log
    requires n <= |events|
  {
    if n == 0 then Log(s, []) else
    var before := Run(s, events, maxLen, n - 1);
    var r := After(before.state, events[n - 1], maxLen);
    Log(r.state, before.out + r.out)
  }

  /** The packets that found room. */
  function Held(s: State, events: seq<Event>, maxLen: int, n: nat): multiset<Elem>
    requires n <= |events|
  {
    if n == 0 then multiset(s.queue) else
    Held(s, events, maxLen, n - 1) + PutIn(Run(s, events, maxLen, n - 1).state, events[n - 1], maxLen)
  }

  function PutIn(s: State, ev: Event, maxLen: int): multiset<Elem> {
    if ev.Put? && |s.queue| < maxLen then multiset{ev.e} else multiset{}
  }

  lemma {:induction false} WokenKeeps(s: State, timeout: bool)
    requires Sorted(s.queue)
    ensures var r := Woken(s, timeout);
            Sorted(r.state.queue) && multiset(s.queue) == multiset(r.out) + multiset(r.state.queue) &&
            forall i :: 0 <= i < |r.state.queue| ==> r.state.queue[i].num > r.state.last + 1
  {
    var k := StartAt(s.queue, s.takeAny, s.next, timeout);
    if timeout && k < |s.queue| { TimeoutSends(s.queue, s.last, k); } else { DrainSends(s.queue, s.last); }
  }

  /** Whatever comes in and whenever timeouts strike: the queue is sorted, and every packet that found room is
      either still held or has been sent, once. */
  lemma {:induction false} RunConserves(s: State, events: seq<Event>, maxLen: int, n: nat)
    requires n <= |events| && Sorted(s.queue)
    ensures var r := Run(s, events, maxLen, n);
            Sorted(r.state.queue) && Held(s, events, maxLen, n) == multiset(r.out) + multiset(r.state.queue)
  {
    RunBalanced(s, events, maxLen, n);
  }

  ghost predicate Balanced(held: multiset<Elem>, r: Log) {
    Sorted(r.state.queue) && held == multiset(r.out) + multiset(r.state.queue)
  }

  lemma {:induction false} RunBalanced(s: State, events: seq<Event>, maxLen: int, n: nat)
    requires n <= |events| && Sorted(s.queue)
    ensures Balanced(Held(s, events, maxLen, n), Run(s, events, maxLen, n))
    decreases n
  {
    if n > 0 {
      RunBalanced(s, events, maxLen, n - 1);
      Conserved(Held(s, events, maxLen, n - 1), Run(s, events, maxLen, n - 1), events[n - 1], maxLen);
    }
  }

  lemma {:induction false} Conserved(held: multiset<Elem>, before: Log, ev: Event, maxLen: int)
    requires Balanced(held, before)
    ensures var r := After(before.state, ev, maxLen);
            Balanced(held + PutIn(before.state, ev, maxLen), Log(r.state, before.out + r.out))
  {
    AfterKeeps(before.state, ev, maxLen);
    var r := After(before.state, ev, maxLen);
    BagsMove(held, multiset(before.out), multiset(before.state.queue), PutIn(before.state, ev, maxLen),
             multiset(r.out), multiset(r.state.queue));
    assert multiset(before.out + r.out) == multiset(before.out) + multiset(r.out);
  }

  lemma {:induction false} PutKeeps(s: State, e: Elem, maxLen: int)
    requires Sorted(s.queue)
    ensures var r := After(s, Put(e), maxLen);
            Sorted(r.state.queue) &&
                   multiset(s.queue) + PutIn(s, Put(e), maxLen) == multiset(r.out) + multiset(r.state.queue)
  {
    InsertSorts(s.queue, e);
    InsertAdds(s.queue, e);
  }

  lemma {:induction false} WakeKeeps(s: State, inOrder: bool, timeout: bool, maxLen: int)
    requires Sorted(s.queue)
    ensures var r := After(s, Wake(inOrder, timeout), maxLen);
            Sorted(r.state.queue) && multiset(s.queue) == multiset(r.out) + multiset(r.state.queue)
  {
    if inOrder { WokenKeeps(s, timeout); }
  }

  lemma {:induction false} AfterKeeps(s: State, ev: Event, maxLen: int)
    requires Sorted(s.queue)
    ensures var r := After(s, ev, maxLen);
            Sorted(r.state.queue) &&
            multiset(s.queue) + PutIn(s, ev, maxLen) == multiset(r.out) + multiset(r.state.queue)
  {
    match ev
    case Put(e) => PutKeeps(s, e, maxLen);
    case Wake(inOrder, timeout) => WakeKeeps(s, inOrder, timeout, maxLen);
    case Expire => WokenKeeps(s, true);
  }

  // ----- runs without timeouts -----

  /** All numbers in the queue are above the mark, and different. */
  ghost predicate Above(q: seq<Elem>, last: int) {
    (forall i :: 0 <= i < |q| ==> q[i].num > last) && forall i, j :: 0 <= i < j < |q| ==> q[i].num < q[j].num
  }

  /** The output is from + 1, from + 2, ... */
  ghost predicate Consecutive(out: seq<Elem>, from: int) {
    forall k :: 0 <= k < |out| ==> out[k].num == from + 1 + k
  }

  lemma {:induction false} DrainConsecutive(q: seq<Elem>, last: int)
    requires Above(q, last)
    ensures var r := Drain(q, last); Consecutive(r.out, last) && r.last == last + |r.out| && Above(r.queue, r.last)
    decreases |q|
  {
    if q != [] && q[0].num <= last + 1 { DrainConsecutive(q[1..], last + 1); }
  }

  predicate Calm(ev: Event) { ev.Put? || (ev.Wake? && !ev.timeout) }

  /** The numbers put in are above the mark and different. */
  ghost predicate Fresh(events: seq<Event>, mark: int) {
    (forall i :: 0 <= i < |events| ==> Calm(events[i])) &&
    (forall i :: 0 <= i < |events| && events[i].Put? ==> events[i].e.num > mark) &&
    forall i, j :: 0 <= i < j < |events| && events[i].Put? && events[j].Put? ==> events[i].e.num != events[j].e.num
  }

  ghost predicate CameIn(e: Elem, events: seq<Event>, n: nat)
    requires n <= |events|
  {
    exists i :: 0 <= i < n && events[i] == Put(e)
  }

  ghost predicate AllCameIn(s: seq<Elem>, events: seq<Event>, n: nat)
    requires n <= |events|
  {
    forall k :: 0 <= k < |s| ==> CameIn(s[k], events, n)
  }

  ghost predicate InOrder(r: Log, mark: int, events: seq<Event>, n: nat)
    requires n <= |events|
  {
    Consecutive(r.out, mark) && r.state.last == mark + |r.out| && Above(r.state.queue, r.state.last) &&
    AllCameIn(r.out, events, n) && AllCameIn(r.state.queue, events, n)
  }

  lemma {:induction false} StillThere(q: seq<Elem>, e: Elem, id: nat)
    requires IndexOf(q, id, 0) < |q|
    ensures IndexOf(Inserted(q, e), id, 0) < |q| + 1
  {
    var k := IndexOf(q, id, 0);
    var j := if k < PlaceFor(q, e.num, 0) then k else k + 1;
    assert Inserted(q, e)[j].item.id == id;
    FoundBefore(Inserted(q, e), id, j, 0);
  }

  lemma {:induction false} FoundBefore(q: seq<Elem>, id: nat, j: nat, i: nat)
    requires i <= j < |q| && q[j].item.id == id
    ensures IndexOf(q, id, i) <= j
    decreases j - i
  {
    if i < j && q[i].item.id != id { FoundBefore(q, id, j, i + 1); }
  }

  lemma {:induction false} TryNext(out: seq<Elem>, was: bool, expected: bool, q: seq<Elem>, last: int, timeout: bool,
                                   k: nat)
    requires k < |q| && (timeout || (k == 0 && q[0].num <= last + 1))
    requires expected <==> was || timeout || q[k].num == last + 1
    ensures Then(out, was, TryFrom(q, last, timeout, k)) ==
            Then(out + [q[k]], expected, TryFrom(Removed(q, k), Max(last, q[k].num), false, 0))
  {
    if !timeout { assert Removed(q, 0) == q[1..]; }
    var r := TryFrom(Removed(q, k), Max(last, q[k].num), false, 0);
    assert out + ([q[k]] + r.out) == out + [q[k]] + r.out;
  }

  lemma {:induction false} Rejoin(q: seq<Elem>, out: seq<Elem>, rest: seq<Elem>)
    requires q != [] && out + rest == q[1..]
    ensures [q[0]] + out + rest == q
  {
    assert [q[0]] + out + rest == [q[0]] + (out + rest);
  }

  lemma {:induction false} DrainSplits(q: seq<Elem>, last: int)
    ensures Drain(q, last).out + Drain(q, last).queue == q
    decreases |q|
  {
    if q != [] && q[0].num <= last + 1 {
      DrainSplits(q[1..], Max(last, q[0].num));
      Rejoin(q, Drain(q[1..], Max(last, q[0].num)).out, Drain(q[1..], Max(last, q[0].num)).queue);
    }
  }

  lemma {:induction false} CameInStays(s: seq<Elem>, events: seq<Event>, n: nat)
    requires n < |events| && AllCameIn(s, events, n)
    ensures AllCameIn(s, events, n + 1)
  {
    forall k | 0 <= k < |s|
      ensures CameIn(s[k], events, n + 1)
    {
      assert CameIn(s[k], events, n);
    }
  }

  lemma {:induction false} AmongSent(out: seq<Elem>, mark: int, num: int)
    requires Consecutive(out, mark) && mark < num <= mark + |out|
    ensures exists k :: 0 <= k < |out| && out[k].num == num
  {
    assert out[num - mark - 1].num == num;
  }

  /** A number that was not put in before lies beyond everything sent. */
  lemma {:induction false} NewIsAbove(r: Log, mark: int, events: seq<Event>, n: nat, e: Elem)
    requires n < |events| && Fresh(events, mark) && InOrder(r, mark, events, n) && events[n] == Put(e)
    ensures e.num > r.state.last && forall k :: 0 <= k < |r.state.queue| ==> r.state.queue[k].num != e.num
  {
    forall k | 0 <= k < |r.out|
      ensures r.out[k].num != e.num
    {
      assert CameIn(r.out[k], events, n);
    }
    if e.num <= r.state.last {
      AmongSent(r.out, mark, e.num);
      assert false;
    }
    forall k | 0 <= k < |r.state.queue|
      ensures r.state.queue[k].num != e.num
    {
      assert CameIn(r.state.queue[k], events, n);
    }
  }

  lemma {:induction false} AbovePair(q: seq<Elem>, last: int, e: Elem, i: nat, j: nat)
    requires Above(q, last) && (forall k :: 0 <= k < |q| ==> q[k].num != e.num) && i < j <= |q|
    ensures Inserted(q, e)[i].num < Inserted(q, e)[j].num
  {
    var k := PlaceFor(q, e.num, 0);
    if i < k { PlaceBetween(q, e.num, i); }
    if j > k { PlaceBetween(q, e.num, j - 1); }
  }

  lemma {:induction false} InsertAbove(q: seq<Elem>, last: int, e: Elem)
    requires Above(q, last) && e.num > last && forall k :: 0 <= k < |q| ==> q[k].num != e.num
    ensures Above(Inserted(q, e), last)
  {
    var r := Inserted(q, e);
    forall i, j | 0 <= i < j < |r|
      ensures r[i].num < r[j].num
    {
      AbovePair(q, last, e, i, j);
    }
  }

  lemma {:induction false} PutInOrder(r: Log, mark: int, events: seq<Event>, n: nat, maxLen: int)
    requires n < |events| && Fresh(events, mark) && InOrder(r, mark, events, n) && events[n].Put?
    ensures var x := After(r.state, events[n], maxLen); InOrder(Log(x.state, r.out + x.out), mark, events, n + 1)
  {
    var e, q := events[n].e, r.state.queue;
    NewIsAbove(r, mark, events, n, e);
    InsertAbove(q, r.state.last, e);
    CameInStays(r.out, events, n);
    CameInStays(q, events, n);
    assert CameIn(e, events, n + 1);
    var k := PlaceFor(q, e.num, 0);
    assert AllCameIn(Inserted(q, e), events, n + 1) by {
      forall j | 0 <= j < |q| + 1
        ensures CameIn(Inserted(q, e)[j], events, n + 1)
      {
        if j < k { assert CameIn(q[j], events, n + 1); }
        if j > k { assert CameIn(q[j - 1], events, n + 1); }
      }
    }
  }

  lemma {:induction false} DrainedInOrder(r: Log, mark: int, events: seq<Event>, n: nat)
    requires n <= |events| && InOrder(r, mark, events, n)
    ensures var d := Drain(r.state.queue, r.state.last);
            var t := r.state.(queue := d.queue, last := d.last);
            InOrder(Log(t, r.out + d.out), mark, events, n)
  {
    var d := Drain(r.state.queue, r.state.last);
    DrainConsecutive(r.state.queue, r.state.last);
    ConsecutiveJoin(r.out, d.out, mark);
    DrainedCameIn(r.state.queue, r.state.last, events, n);
    JoinCameIn(r.out, d.out, events, n);
  }

  lemma {:induction false} DrainedCameIn(q: seq<Elem>, last: int, events: seq<Event>, n: nat)
    requires n <= |events| && AllCameIn(q, events, n)
    ensures AllCameIn(Drain(q, last).out, events, n) && AllCameIn(Drain(q, last).queue, events, n)
  {
    DrainSplits(q, last);
    SplitCameIn(Drain(q, last).out, Drain(q, last).queue, events, n);
  }

  lemma {:induction false} ConsecutiveJoin(a: seq<Elem>, b: seq<Elem>, mark: int)
    requires Consecutive(a, mark) && Consecutive(b, mark + |a|)
    ensures Consecutive(a + b, mark)
  {
  }

  lemma {:induction false} WakeInOrder(r: Log, mark: int, events: seq<Event>, n: nat, maxLen: int)
    requires n < |events| && Calm(events[n]) && InOrder(r, mark, events, n) && events[n].Wake?
    ensures var x := After(r.state, events[n], maxLen); InOrder(Log(x.state, r.out + x.out), mark, events, n + 1)
  {
    CameInStays(r.out, events, n);
    CameInStays(r.state.queue, events, n);
    if events[n].inOrder { DrainedInOrder(r, mark, events, n + 1); }
  }

  lemma {:induction false} SplitCameIn(a: seq<Elem>, b: seq<Elem>, events: seq<Event>, n: nat)
    requires n <= |events| && AllCameIn(a + b, events, n)
    ensures AllCameIn(a, events, n) && AllCameIn(b, events, n)
  {
    forall k | 0 <= k < |a|
      ensures CameIn(a[k], events, n)
    {
      assert CameIn((a + b)[k], events, n);
    }
    forall k | 0 <= k < |b|
      ensures CameIn(b[k], events, n)
    {
      assert CameIn((a + b)[|a| + k], events, n);
    }
  }

  lemma {:induction false} JoinCameIn(a: seq<Elem>, b: seq<Elem>, events: seq<Event>, n: nat)
    requires n <= |events| && AllCameIn(a, events, n) && AllCameIn(b, events, n)
    ensures AllCameIn(a + b, events, n)
  {
  }

  /** Different numbers above the mark, in any order of arrival, and no timeout: the output is mark + 1,
      mark + 2, and so on, without gap or repetition, and nothing that was sent is still held. */
  lemma {:induction false} OutputInOrder(mark: int, takeAny: bool, events: seq<Event>, maxLen: int, n: nat)
    requires n <= |events| && Fresh(events, mark)
    ensures InOrder(Run(State([], mark, takeAny, None), events, maxLen, n), mark, events, n)
    decreases n
  {
    if n > 0 {
      OutputInOrder(mark, takeAny, events, maxLen, n - 1);
      var r := Run(State([], mark, takeAny, None), events, maxLen, n - 1);
      if events[n - 1].Put? { PutInOrder(r, mark, events, n - 1, maxLen); } else {
        assert Calm(events[n - 1]);
        WakeInOrder(r, mark, events, n - 1, maxLen);
      }
    }
  }

  // ----- order after a timeout, in terms of the queue -----

  ghost predicate SameDeadlines(q: seq<Elem>) {
    forall i, j :: 0 <= i < j < |q| ==> q[i].item.time == q[j].item.time
  }

  lemma {:induction false} NoChange(q: seq<Elem>, n: nat)
    requires n <= |q| && SameDeadlines(q)
    ensures LastChange(q, n) == None
    decreases n
  {
    if n > 1 { NoChange(q, n - 1); }
  }

  /** Where numbers are all different, a timeout sends in order exactly when the mark was reset or all held packets
      have the same deadline. */
  lemma {:induction false} InOrderExactly(s: State)
    requires s.queue != [] && DistinctIds(s.queue) && s.next == NextOf(s.queue)
    requires forall i, j :: 0 <= i < j < |s.queue| ==> s.queue[i].num < s.queue[j].num
    ensures Sorted(Woken(s, true).out) <==> s.takeAny || SameDeadlines(s.queue)
  {
    var q, k := s.queue, StartAt(s.queue, s.takeAny, s.next, true);
    var c := LastChange(q, |q|);
    if c.Some? { IndexOfAt(q, c.value, 0); }
    TimeoutInOrder(q, s.last, k);
    if SameDeadlines(q) { NoChange(q, |q|); }
    if c.None? {
      forall i | 0 <= i < |q|
        ensures q[i].item.time == q[|q| - 1].item.time
      {
        LastChangeRuns(q, |q|, i);
      }
    }
  }

  // ----- after a silence -----

  /** A packet that comes after a silence with nothing held, and the worker's look at it. */
  function AfterSilence(s: State, e: Elem, maxLen: int): Log {
    var waiting := After(Expired(s).state, Put(e), maxLen).state;
    After(waiting, Wake(true, false), maxLen)
  }

  /** A silence makes the ordering ready to take any number, but the first packet is sent at once only if its number
      is not beyond the expected one; otherwise it waits for its own deadline, which sends it whatever its number. */
  lemma {:induction false} SilenceTakesAny(s: State, e: Elem, maxLen: int)
    requires s.queue == [] && maxLen > 0
    ensures Expired(s).state.takeAny && Expired(s).out == [] && Expired(s).state.last == s.last
    ensures var r := AfterSilence(s, e, maxLen);
            if e.num <= s.last + 1 then r.out == [e] && r.state.queue == [] && r.state.last == Max(s.last, e.num)
            else r.out == [] && r.state.queue == [e] && r.state.takeAny && Expired(r.state).out == [e] &&
                 Expired(r.state).state.last == e.num && !Expired(r.state).state.takeAny
  {
    assert Inserted([], e) == [e];
    DrainOne(e, s.last);
    assert Removed([e], 0) == [];
  }

  lemma {:induction false} DrainOne(e: Elem, last: int)
    ensures Drain([e], last) ==
            if e.num > last + 1 then Sent([e], last, [], false)
            else Sent([], Max(last, e.num), [e], e.num == last + 1)
  {
    var rest: seq<Elem> := [e][1..];
    assert rest == [] && Drain(rest, Max(last, e.num)).out == [];
  }
}
