/** The delay queue (delay.c). */
module DelayQueues {
  import opened SortedQueues
  import opened Times

  /** A held packet, filed under the rank of its deadline. */
  datatype Held = Held(id: nat, deadline: Time)
  type Item = Entry<Held>

  /** Seconds first, then nanoseconds, which a malformed stamp may push beyond a second. */
  function Rank(t: Time): int { t.sec * 0x1_0000_0000 + t.nsec }

  predicate Ranked(t: Time) { 0 <= t.nsec < 0x1_0000_0000 }

  lemma {:induction false} RankIsOrder(a: Time, b: Time)
    requires Ranked(a) && Ranked(b)
    ensures Later(a, b) <==> Rank(a) > Rank(b)
    ensures Proper(a) && Proper(b) ==> (Nanos(a) > Nanos(b) <==> Rank(a) > Rank(b))
  {
    if Proper(a) && Proper(b) { TimesAreNumbers(a, b); }
  }

  function ItemFor(id: nat, stamp: nat, delay: Time, now: Time): Item {
    var deadline := Plus(FromStamp(stamp, now), delay);
    Entry(Rank(deadline), Held(id, deadline))
  }

  /** A packet stamped at t leaves at t, truncated to microseconds, plus its delay, exactly when that truncated
      time lies in the two seconds before the insertion. */
  lemma {:induction false} DeadlineIsEntryPlusDelay(id: nat, t: Time, delay: Time, now: Time)
    requires Proper(t) && t.sec >= 0 && Proper(now) && now.sec >= 0 && Proper(delay)
    ensures Nanos(ItemFor(id, ToStamp(t), delay, now).item.deadline) == Nanos(Micro(t)) + Nanos(delay) <==>
            Recent(Micro(t), now)
  {
    StampRoundTrip(t, now);
    ExpandedIsRecent(t, now);
    var r := FromStamp(ToStamp(t), now);
    TimesAreNumbers(r, delay);
    TimesAreNumbers(r, Micro(t));
  }

  class DelayQueue {
    var queue: seq<Item>

    ghost predicate Valid()
      reads this
    {
      Sorted(queue) && forall i :: 0 <= i < |queue| ==> Filed(queue[i])
    }

    constructor ()
      ensures Valid() && queue == []
    {
      queue := [];
    }

    /** In increasing order of deadlines; a new packet goes before those with the same deadline. */
    method Push(id: nat, stamp: nat, delay: Time, now: Time)
      requires Valid() && Proper(delay)
      modifies this
      ensures Valid() && queue == Inserted(old(queue), ItemFor(id, stamp, delay, now))
    {
      var n := ItemFor(id, stamp, delay, now);
      var i := FindPlace(queue, n);
      InsertSorts(queue, n);
      queue := queue[..i] + [n] + queue[i..];
    }

    /** Nothing held is due before the packet that is sent. */
    method SendFirst() returns (sent: seq<Item>)
      requires Valid()
      modifies this
      ensures Valid() && sent + queue == old(queue) && |sent| == if old(queue) == [] then 0 else 1
      ensures forall i :: 0 <= i < |queue| ==> sent != [] && sent[0].num <= queue[i].num
    {
      if queue == [] { return []; }
      sent := [queue[0]];
      queue := queue[1..];
    }

    method Flush() returns (sent: seq<Item>)
      requires Valid()
      modifies this
      ensures Valid() && queue == [] && sent == old(queue)
    {
      sent := [];
      while queue != []
        invariant Valid() && sent + queue == old(queue)
        decreases |queue|
      {
        var first := SendFirst();
        sent := sent + first;
      }
    }
  }

  predicate Filed(x: Item) { Ranked(x.item.deadline) && x.num == Rank(x.item.deadline) }

  method FindPlace(q: seq<Item>, n: Item) returns (i: nat)
    requires Filed(n) && forall i :: 0 <= i < |q| ==> Filed(q[i])
    ensures i == PlaceFor(q, n.num, 0)
  {
    i := 0;
    while i < |q| && Later(n.item.deadline, q[i].item.deadline)
      invariant i <= |q| && PlaceFor(q, n.num, 0) == PlaceFor(q, n.num, i)
    {
      RankIsOrder(n.item.deadline, q[i].item.deadline);
      i := i + 1;
    }
    if i < |q| { RankIsOrder(n.item.deadline, q[i].item.deadline); }
  }

  // ----- runs -----

  datatype Event = Push(x: Item) | SendFirst | Flush
  datatype Log = Log(queue: seq<Item>, sent: seq<Item>)

  function After(q: seq<Item>, ev: Event): Log {
    match ev
    case Push(x) => Log(Inserted(q, x), [])
    case SendFirst => if q == [] then Log(q, []) else Log(q[1..], q[..1])
    case Flush => Log([], q)
  }

  function Run(events: seq<Event>, n: nat): Log
    requires n <= |events|
  {
    if n == 0 then Log([], []) else
    var before := Run(events, n - 1);
    var r := After(before.queue, events[n - 1]);
    Log(r.queue, before.sent + r.sent)
  }

  function Pushed(events: seq<Event>, n: nat): multiset<Item>
    requires n <= |events|
  {
    if n == 0 then multiset{} else
    Pushed(events, n - 1) + PutIn(events[n - 1])
  }

  function PutIn(ev: Event): multiset<Item> { if ev.Push? then multiset{ev.x} else multiset{} }

  lemma {:induction false} AfterKeeps(q: seq<Item>, ev: Event)
    requires Sorted(q)
    ensures var r := After(q, ev);
            Sorted(r.queue) && Sorted(r.sent) &&
            multiset(q) + PutIn(ev) == multiset(r.sent) + multiset(r.queue) &&
            (!ev.Push? ==> r.sent + r.queue == q)
  {
    match ev
    case Push(x) => InsertSorts(q, x); InsertAdds(q, x);
    case SendFirst => if q != [] { assert q == q[..1] + q[1..]; }
    case Flush =>
  }

  /** Any run: the queue is sorted, and every packet pushed has been sent once or is still held. */
  lemma {:induction false} RunConserves(events: seq<Event>, n: nat)
    requires n <= |events|
    ensures var r := Run(events, n); Sorted(r.queue) && Pushed(events, n) == multiset(r.sent) + multiset(r.queue)
    decreases n
  {
    if n > 0 {
      RunConserves(events, n - 1);
      var before := Run(events, n - 1);
      var r := After(before.queue, events[n - 1]);
      AfterKeeps(before.queue, events[n - 1]);
      BagsMove(Pushed(events, n - 1), multiset(before.sent), multiset(before.queue), PutIn(events[n - 1]),
               multiset(r.sent), multiset(r.queue));
      assert multiset(before.sent + r.sent) == multiset(before.sent) + multiset(r.sent);
    }
  }

  /** After a flush everything pushed has been sent. */
  lemma {:induction false} FlushSendsAll(events: seq<Event>, n: nat)
    requires n < |events| && events[n] == Flush
    ensures var r := Run(events, n + 1); r.queue == [] && Pushed(events, n + 1) == multiset(r.sent)
  {
    RunConserves(events, n + 1);
  }

  /** Of packets with the same deadline the one pushed last is sent first. */
  lemma {:induction false} NewestFirst(q: seq<Item>, x: Item, j: nat)
    requires Sorted(q) && j < |q| && q[j].num == x.num
    ensures var k := PlaceFor(q, x.num, 0); k <= j && Inserted(q, x)[k] == x && Inserted(q, x)[j + 1] == q[j]
  {
    PlaceBetween(q, x.num, j);
  }
}
