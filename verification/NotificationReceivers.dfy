/** Putting the fragments of notifications together again (json_receiver/notification_receiver.py). */
module NotificationReceivers {
  import opened Basics
  import Notifications

  /** No fragment id, "idx/of", a number without the slash, or something else. */
  datatype Fragment = Whole | Part(idx: nat, of: nat) | NoCount(idx: nat) | Bad(id: string)
  datatype Note = Note(host: string, session: nat, num: nat, fragment: Fragment, text: string)
  datatype Key = Key(host: string, session: nat, num: nat, fragment: Fragment)
  datatype Collector = Collector(parts: map<nat, string>, last: int, count: nat)
  datatype Full = Full(host: string, num: nat, text: string)

  /** The keys received last, and what has been collected of each host's current message. */
  datatype Receiver = Receiver(recent: seq<Key>, collectors: map<string, Collector>)
  datatype Collection = Collection(collectors: map<string, Collector>, out: Option<Full>)
  /** raised: the call ends with an error that it does not catch. */
  datatype Reply = Reply(state: Receiver, out: Option<Full>, raised: bool)

  // ----- one packet -----

  function KeyOf(note: Note): Key { Key(note.host, note.session, note.num, note.fragment) }

  /** Append to a queue that holds the newest size entries. */
  function Remember(recent: seq<Key>, k: Key, size: nat): seq<Key> {
    var s := recent + [k];
    if |s| > size then s[|s| - size..] else s
  }

  /** Parts 1 to n, if all are there. */
  function Join(parts: map<nat, string>, n: nat): Option<string> {
    if n == 0 then Some("") else
    var before := Join(parts, n - 1);
    if before.None? || n !in parts then None else Some(before.value + parts[n])
  }

  function CollectorFor(collectors: map<string, Collector>, note: Note): Collector {
    var c := if note.host in collectors then collectors[note.host] else Collector(map[], -1, 0);
    if c.last != note.num then Collector(map[], note.num, 0) else c
  }

  /** A message that does not parse raises an error before the collector is emptied. */
  function Collect(collectors: map<string, Collector>, note: Note, parses: string -> bool): Collection
    requires note.fragment.Part?
  {
    var c := CollectorFor(collectors, note);
    var c' := c.(parts := c.parts[note.fragment.idx := note.text], count := c.count + 1);
    if c'.count != note.fragment.of then Collection(collectors[note.host := c'], None)
    else
      var text := Join(c'.parts, note.fragment.of);
      if text.None? || !parses(text.value) then Collection(collectors[note.host := c'], None)
      else Collection(collectors[note.host := Collector(map[], -1, 0)], Some(Full(note.host, note.num, text.value)))
  }

  /** A host is entered before the fragment id is looked at. */
  function Entered(collectors: map<string, Collector>, host: string): map<string, Collector> {
    if host in collectors then collectors else collectors[host := Collector(map[], -1, 0)]
  }

  /** Duplicates change nothing. Whatever else is wrong with a packet, its key is remembered. A fragment id without
      the slash is not caught. */
  function Receive(size: nat, r: Receiver, note: Note, parses: string -> bool): Reply {
    if KeyOf(note) in r.recent then Reply(r, None, false)
    else
      var recent := Remember(r.recent, KeyOf(note), size);
      if note.fragment == Whole || note.fragment == Part(1, 1) then
        var out := if parses(note.text) then Some(Full(note.host, note.num, note.text)) else None;
        Reply(Receiver(recent, r.collectors), out, false)
      else if !note.fragment.Part? then
        Reply(Receiver(recent, Entered(r.collectors, note.host)), None, note.fragment.NoCount?)
      else
        var c := Collect(r.collectors, note, parses);
        Reply(Receiver(recent, c.collectors), c.out, false)
  }

  /** Whatever is wrong with a packet, it is remembered, so the same packet again changes nothing and says nothing; the
      first time, it raises exactly when its fragment id lacks the slash. */
  lemma {:induction false} OnceOnly(size: nat, r: Receiver, note: Note, parses: string -> bool)
    requires size >= 1
    ensures var x := Receive(size, r, note, parses);
            KeyOf(note) in x.state.recent && Receive(size, x.state, note, parses) == Reply(x.state, None, false) &&
            (x.raised <==> KeyOf(note) !in r.recent && note.fragment.NoCount?)
  {
    Remembered(r.recent, KeyOf(note), size);
  }

  class NotificationReceiver {
    const size: nat
    const parses: string -> bool // whether a text is JSON
    var recent: seq<Key>
    var collectors: map<string, Collector>

    function View(): Receiver
      reads this
    {
      Receiver(recent, collectors)
    }

    constructor (parses: string -> bool, size: nat := 20)
      ensures View() == Receiver([], map[]) && this.size == size && this.parses == parses
    {
      this.size, this.parses := size, parses;
      recent, collectors := [], map[];
    }

    /** A packet that is not JSON or lacks a field changes nothing. */
    method ProcessNotification(data: Option<Note>) returns (out: Option<Full>, raised: bool)
      modifies this
      ensures data.None? ==> out == None && !raised && View() == old(View())
      ensures data.Some? ==> Reply(View(), out, raised) == Receive(size, old(View()), data.value, parses)
    {
      if data.None? { return None, false; }
      var note := data.value;
      if KeyOf(note) in recent { return None, false; }
      recent := recent + [KeyOf(note)];
      if |recent| > size { recent := recent[|recent| - size..]; }
      if note.fragment == Whole || note.fragment == Part(1, 1) {
        out := if parses(note.text) then Some(Full(note.host, note.num, note.text)) else None;
        return out, false;
      }
      out, raised := HandleMultipart(note);
    }

    method HandleMultipart(note: Note) returns (out: Option<Full>, raised: bool)
      requires !note.fragment.Whole?
      modifies this`collectors
      ensures if note.fragment.Part? then Collection(collectors, out) == Collect(old(collectors), note, parses)
              else out == None && collectors == Entered(old(collectors), note.host)
      ensures raised <==> note.fragment.NoCount?
    {
      if note.host !in collectors { collectors := collectors[note.host := Collector(map[], -1, 0)]; }
      if note.fragment.Bad? { return None, false; }
      if note.fragment.NoCount? { return None, true; }
      var c := collectors[note.host];
      if c.last != note.num { c := Collector(map[], note.num, 0); }
      c := c.(parts := c.parts[note.fragment.idx := note.text], count := c.count + 1);
      out, raised := None, false;
      if c.count == note.fragment.of {
        var text := JoinParts(c.parts, note.fragment.of);
        if text.Some? && parses(text.value) {
          out := Some(Full(note.host, note.num, text.value));
          c := Collector(map[], -1, 0);
        }
      }
      collectors := collectors[note.host := c];
    }
  }

  method JoinParts(parts: map<nat, string>, items: nat) returns (r: Option<string>)
    ensures r == Join(parts, items)
  {
    var text := "";
    for i := 0 to items
      invariant Join(parts, i) == Some(text)
    {
      if i + 1 !in parts {
        JoinFails(parts, i + 1, items);
        return None;
      }
      text := text + parts[i + 1];
    }
    return Some(text);
  }

  lemma {:induction false} JoinFails(parts: map<nat, string>, k: nat, n: nat)
    requires 0 < k <= n && k !in parts
    ensures Join(parts, n).None?
    decreases n
  {
    if k < n { JoinFails(parts, k, n - 1); }
  }

  // ----- the fragments of one message -----

  datatype Message = Message(host: string, session: nat, num: nat, parts: seq<string>)

  predicate Numbered(m: Message, i: nat) { 1 <= i <= |m.parts| }

  function NoteOf(m: Message, i: nat): Note
    requires Numbered(m, i)
  {
    Note(m.host, m.session, m.num, Part(i, |m.parts|), m.parts[i - 1])
  }

  function FullOf(m: Message): Full { Full(m.host, m.num, Notifications.Concat(m.parts, |m.parts|)) }

  /** Distinct fragment numbers, in order of first arrival. */
  ghost predicate Order(m: Message, o: seq<nat>) {
    AllNumbered(m, o) && forall k, l :: 0 <= k < l < |o| ==> o[k] != o[l]
  }

  ghost predicate AllNumbered(m: Message, o: seq<nat>) { forall k :: 0 <= k < |o| ==> Numbered(m, o[k]) }

  function PartsOf(m: Message, o: seq<nat>, n: nat): map<nat, string>
    requires n <= |o| && AllNumbered(m, o)
  {
    if n == 0 then map[] else PartsOf(m, o, n - 1)[o[n - 1] := m.parts[o[n - 1] - 1]]
  }

  lemma {:induction false} PartsAt(m: Message, o: seq<nat>, n: nat, i: nat)
    requires n <= |o| && AllNumbered(m, o) && i in SetOf(o, n)
    ensures Numbered(m, i) && i in PartsOf(m, o, n) && PartsOf(m, o, n)[i] == m.parts[i - 1]
    decreases n
  {
    if i != o[n - 1] { PartsAt(m, o, n - 1, i); }
  }

  /** The numbers 1 to n. */
  function UpTo(n: nat): (s: set<nat>)
    ensures |s| == n && forall i :: i in s <==> 1 <= i <= n
  {
    if n == 0 then {} else UpTo(n - 1) + {n}
  }

  function SetOf(o: seq<nat>, n: nat): (s: set<nat>)
    requires n <= |o|
    ensures forall i :: i in s <==> exists k :: 0 <= k < n && o[k] == i
  {
    if n == 0 then {} else SetOf(o, n - 1) + {o[n - 1]}
  }

  predicate NewAt(o: seq<nat>, n: nat)
    requires n < |o|
  {
    o[n] !in SetOf(o, n)
  }

  lemma {:induction false} SizeOf(o: seq<nat>, n: nat)
    requires n <= |o| && forall k :: 0 <= k < |o| ==> NewAt(o, k)
    ensures |SetOf(o, n)| == n
    decreases n
  {
    if n > 0 {
      SizeOf(o, n - 1);
      assert NewAt(o, n - 1);
    }
  }

  lemma {:induction false} OrderSize(m: Message, o: seq<nat>)
    requires Order(m, o)
    ensures |SetOf(o, |o|)| == |o|
  {
    forall k | 0 <= k < |o|
      ensures NewAt(o, k)
    {
    }
    SizeOf(o, |o|);
  }

  /** As many distinct fragments as there are parts are all of them. */
  lemma {:induction false} OrderFull(m: Message, o: seq<nat>, i: nat)
    requires Order(m, o) && |o| == |m.parts| && Numbered(m, i)
    ensures i in SetOf(o, |o|)
  {
    OrderSize(m, o);
    SubsetSize(SetOf(o, |o|), UpTo(|m.parts|));
  }

  lemma {:induction false} JoinAll(m: Message, parts: map<nat, string>, n: nat)
    requires n <= |m.parts| && forall i :: Numbered(m, i) ==> i in parts && parts[i] == m.parts[i - 1]
    ensures Join(parts, n) == Some(Notifications.Concat(m.parts, n))
    decreases n
  {
    if n > 0 {
      JoinAll(m, parts, n - 1);
      assert Numbered(m, n);
    }
  }

  // ----- the collector -----

  /** The collector holds exactly the fragments of o. */
  ghost predicate Collected(cs: map<string, Collector>, m: Message, o: seq<nat>)
    requires Order(m, o)
  {
    if o == [] then m.host in cs ==> cs[m.host].last != m.num
    else m.host in cs && cs[m.host] == Collector(PartsOf(m, o, |o|), m.num, |o|)
  }

  lemma {:induction false} PartsSnoc(m: Message, o: seq<nat>, i: nat, n: nat)
    requires Numbered(m, i) && n <= |o| && AllNumbered(m, o)
    ensures AllNumbered(m, o + [i]) && PartsOf(m, o + [i], n) == PartsOf(m, o, n)
    decreases n
  {
    if n > 0 { PartsSnoc(m, o, i, n - 1); }
  }

  lemma {:induction false} AllThere(m: Message, o: seq<nat>)
    requires Order(m, o) && |o| == |m.parts|
    ensures Join(PartsOf(m, o, |o|), |o|) == Some(Notifications.Concat(m.parts, |m.parts|))
  {
    forall i | Numbered(m, i)
      ensures i in PartsOf(m, o, |o|) && PartsOf(m, o, |o|)[i] == m.parts[i - 1]
    {
      OrderFull(m, o, i);
      PartsAt(m, o, |o|, i);
    }
    JoinAll(m, PartsOf(m, o, |o|), |o|);
  }

  lemma {:induction false} OrderSnoc(m: Message, o: seq<nat>, i: nat)
    requires Order(m, o) && Numbered(m, i) && i !in o
    ensures Order(m, o + [i])
    ensures PartsOf(m, o + [i], |o| + 1) == PartsOf(m, o, |o|)[i := m.parts[i - 1]]
  {
    PartsSnoc(m, o, i, |o|);
  }

  /** A further fragment is kept; the last one gives the whole message and empties the collector. */
  lemma {:induction false} CollectNext(cs: map<string, Collector>, m: Message, o: seq<nat>, i: nat,
                                       parses: string -> bool)
    requires parses(FullOf(m).text)
    requires Order(m, o) && Collected(cs, m, o) && Numbered(m, i) && i !in o
    ensures Order(m, o + [i])
    ensures var c := Collect(cs, NoteOf(m, i), parses);
            if |o| + 1 == |m.parts| then c.out == Some(FullOf(m)) && Collected(c.collectors, m, [])
            else c.out == None && Collected(c.collectors, m, o + [i])
  {
    OrderSnoc(m, o, i);
    var c := CollectorFor(cs, NoteOf(m, i));
    assert c == Collector(PartsOf(m, o, |o|), m.num, |o|);
    if |o| + 1 == |m.parts| { AllThere(m, o + [i]); }
  }

  // ----- deliveries -----

  function MessageKey(m: Message, i: nat): Key { Key(m.host, m.session, m.num, Part(i, |m.parts|)) }

  /** The receiver after the first n deliveries of fragments of the message. */
  function After(size: nat, r: Receiver, m: Message, ds: seq<nat>, n: nat, parses: string -> bool): Receiver
    requires n <= |ds| && AllNumbered(m, ds)
  {
    if n == 0 then r else Receive(size, After(size, r, m, ds, n - 1, parses), NoteOf(m, ds[n - 1]), parses).state
  }

  /** What each call returned. */
  function Returned(size: nat, r: Receiver, m: Message, ds: seq<nat>, parses: string -> bool): (outs: seq<Option<Full>>)
    requires AllNumbered(m, ds)
    ensures |outs| == |ds|
  {
    seq(|ds|, i requires 0 <= i < |ds| => Receive(size, After(size, r, m, ds, i, parses), NoteOf(m, ds[i]), parses).out)
  }

  function Somes(outs: seq<Option<Full>>, n: nat): seq<Full>
    requires n <= |outs|
  {
    if n == 0 then [] else Somes(outs, n - 1) + (if outs[n - 1].Some? then [outs[n - 1].value] else [])
  }

  /** The messages that came out. */
  function Results(size: nat, r: Receiver, m: Message, ds: seq<nat>, parses: string -> bool): seq<Full>
    requires AllNumbered(m, ds)
  {
    Somes(Returned(size, r, m, ds, parses), |ds|)
  }

  /** The receiver holds nothing of the message. */
  ghost predicate Unknown(r: Receiver, m: Message) {
    NoKeys(r.recent, m) && Collected(r.collectors, m, [])
  }

  ghost predicate NoKeys(keys: seq<Key>, m: Message) {
    forall q :: 0 <= q < |keys| ==> !IsKey(keys[q], m)
  }

  predicate IsKey(k: Key, m: Message) {
    k.fragment.Part? && Numbered(m, k.fragment.idx) && k == MessageKey(m, k.fragment.idx)
  }

  function FirstSeen(ds: seq<nat>, n: nat): (o: seq<nat>)
    requires n <= |ds|
  {
    if n == 0 then [] else
    var o := FirstSeen(ds, n - 1);
    if ds[n - 1] in o then o else o + [ds[n - 1]]
  }

  function Keys(m: Message, o: seq<nat>): (r: seq<Key>)
    ensures |r| == |o|
  {
    seq(|o|, k requires 0 <= k < |o| => MessageKey(m, o[k]))
  }

  lemma {:induction false} KnownExactly(front: seq<Key>, m: Message, o: seq<nat>, i: nat)
    requires NoKeys(front, m) && Numbered(m, i)
    ensures MessageKey(m, i) in front + Keys(m, o) <==> i in o
  {
    var keys := front + Keys(m, o);
    if i in o {
      var k :| 0 <= k < |o| && o[k] == i;
      assert keys[|front| + k] == MessageKey(m, i);
    }
    if MessageKey(m, i) in keys {
      var q :| 0 <= q < |keys| && keys[q] == MessageKey(m, i);
      assert q >= |front| by { if q < |front| { assert IsKey(front[q], m); } }
      assert keys[q] == Keys(m, o)[q - |front|];
      assert o[q - |front|] == i;
    }
  }

  /** As long as the history is large enough, only older keys are pushed out of it. */
  lemma {:induction false} RememberNext(front: seq<Key>, m: Message, o: seq<nat>, i: nat, size: nat)
    returns (front': seq<Key>)
    requires NoKeys(front, m) && |o| < size
    ensures NoKeys(front', m) && Remember(front + Keys(m, o), MessageKey(m, i), size) == front' + Keys(m, o + [i])
  {
    var s := front + Keys(m, o) + [MessageKey(m, i)];
    var drop: nat := if |s| > size then |s| - size else 0;
    front' := front[drop..];
    assert Keys(m, o + [i]) == Keys(m, o) + [MessageKey(m, i)];
    assert s == front + Keys(m, o + [i]);
    assert s[drop..] == front' + Keys(m, o + [i]);
  }

  /** A receiver that has seen the fragments o of the message, and has them all in its history. */
  ghost predicate Knows(r: Receiver, m: Message, o: seq<nat>, front: seq<Key>) {
    NoKeys(front, m) && r.recent == front + Keys(m, o) && Order(m, o) &&
    Collected(r.collectors, m, if |o| == |m.parts| then [] else o)
  }

  lemma {:induction false} KnowsNext(size: nat, r: Receiver, m: Message, o: seq<nat>, front: seq<Key>, i: nat,
                                     parses: string -> bool)
    returns (front': seq<Key>)
    requires parses(FullOf(m).text)
    requires 2 <= |m.parts| <= size && Knows(r, m, o, front) && Numbered(m, i)
    ensures var x := Receive(size, r, NoteOf(m, i), parses);
            if i in o then x == Reply(r, None, false) && front' == front
            else |o| < |m.parts| && Knows(x.state, m, o + [i], front') &&
                 x.out == if |o| + 1 == |m.parts| then Some(FullOf(m)) else None
  {
    front' := front;
    KnownExactly(front, m, o, i);
    if i !in o {
      assert |o| < |m.parts| by { OrderBounded(m, o, i); }
      front' := RememberNext(front, m, o, i, size);
      CollectNext(r.collectors, m, o, i, parses);
    }
  }

  lemma {:induction false} OrderBounded(m: Message, o: seq<nat>, i: nat)
    requires Order(m, o) && Numbered(m, i) && i !in o
    ensures |o| < |m.parts|
  {
    OrderSize(m, o);
    assert SetOf(o, |o|) <= UpTo(|m.parts|) - {i};
    SubsetSize(SetOf(o, |o|), UpTo(|m.parts|) - {i});
  }

  lemma {:induction false} KnownSoFar(size: nat, r: Receiver, m: Message, ds: seq<nat>, n: nat, parses: string -> bool)
    returns (front: seq<Key>)
    requires parses(FullOf(m).text)
    requires 2 <= |m.parts| <= size && Unknown(r, m) && AllNumbered(m, ds) && n <= |ds|
    ensures Knows(After(size, r, m, ds, n, parses), m, FirstSeen(ds, n), front)
    decreases n
  {
    if n == 0 {
      front := r.recent;
    } else {
      front := KnownSoFar(size, r, m, ds, n - 1, parses);
      front := KnowsNext(size, After(size, r, m, ds, n - 1, parses), m, FirstSeen(ds, n - 1), front, ds[n - 1], parses);
    }
  }

  /** Fragment i of the delivery completes the message. */
  predicate Completes(m: Message, ds: seq<nat>, i: nat)
    requires i < |ds|
  {
    ds[i] !in FirstSeen(ds, i) && |FirstSeen(ds, i)| + 1 == |m.parts|
  }

  lemma {:induction false} ReturnedAt(size: nat, r: Receiver, m: Message, ds: seq<nat>, i: nat, parses: string -> bool)
    requires parses(FullOf(m).text) && 2 <= |m.parts| <= size && Unknown(r, m) && AllNumbered(m, ds) && i < |ds|
    ensures Receive(size, After(size, r, m, ds, i, parses), NoteOf(m, ds[i]), parses).out ==
            if Completes(m, ds, i) then Some(FullOf(m)) else None
    ensures ds[i] !in FirstSeen(ds, i) ==> |FirstSeen(ds, i)| < |m.parts|
  {
    var front := KnownSoFar(size, r, m, ds, i, parses);
    front := KnowsNext(size, After(size, r, m, ds, i, parses), m, FirstSeen(ds, i), front, ds[i], parses);
  }

  /** What the receiver says to the i-th fragment. */
  predicate AnsweredAt(m: Message, ds: seq<nat>, outs: seq<Option<Full>>, i: nat)
    requires i < |ds| == |outs|
  {
    outs[i] == (if Completes(m, ds, i) then Some(FullOf(m)) else None) &&
    (ds[i] !in FirstSeen(ds, i) ==> |FirstSeen(ds, i)| < |m.parts|)
  }

  lemma {:induction false} OneCompletes(m: Message, ds: seq<nat>, outs: seq<Option<Full>>, n: nat)
    requires n <= |outs| == |ds| && 1 <= |m.parts|
    requires forall i :: 0 <= i < |ds| ==> AnsweredAt(m, ds, outs, i)
    ensures Somes(outs, n) == if |FirstSeen(ds, n)| == |m.parts| then [FullOf(m)] else []
    decreases n
  {
    if n > 0 {
      OneCompletes(m, ds, outs, n - 1);
      assert AnsweredAt(m, ds, outs, n - 1);
    }
  }

  lemma {:induction false} DeliveredSoFar(size: nat, r: Receiver, m: Message, ds: seq<nat>, parses: string -> bool)
    requires parses(FullOf(m).text) && 2 <= |m.parts| <= size && Unknown(r, m) && AllNumbered(m, ds)
    ensures Results(size, r, m, ds, parses) == if |FirstSeen(ds, |ds|)| == |m.parts| then [FullOf(m)] else []
  {
    var outs := Returned(size, r, m, ds, parses);
    forall i | 0 <= i < |ds|
      ensures AnsweredAt(m, ds, outs, i)
    {
      ReturnedAt(size, r, m, ds, i, parses);
    }
    OneCompletes(m, ds, outs, |ds|);
  }

  lemma {:induction false} FirstSeenAll(ds: seq<nat>, n: nat, i: nat)
    requires n <= |ds|
    ensures i in FirstSeen(ds, n) <==> i in ds[..n]
    decreases n
  {
    if n > 0 {
      FirstSeenAll(ds, n - 1, i);
      assert ds[..n] == ds[..n - 1] + [ds[n - 1]];
    }
  }

  lemma {:induction false} AllSeen(m: Message, ds: seq<nat>, i: nat)
    requires Order(m, FirstSeen(ds, |ds|)) && |FirstSeen(ds, |ds|)| == |m.parts| && Numbered(m, i)
    ensures i in ds
  {
    OrderFull(m, FirstSeen(ds, |ds|), i);
    FirstSeenAll(ds, |ds|, i);
    assert ds[..|ds|] == ds;
  }

  lemma {:induction false} SeenAll(m: Message, ds: seq<nat>)
    requires Order(m, FirstSeen(ds, |ds|)) && forall i :: Numbered(m, i) ==> i in ds
    ensures |FirstSeen(ds, |ds|)| == |m.parts|
  {
    var o := FirstSeen(ds, |ds|);
    forall i | i in UpTo(|m.parts|)
      ensures i in SetOf(o, |o|)
    {
      assert Numbered(m, i);
      FirstSeenAll(ds, |ds|, i);
      assert ds[..|ds|] == ds;
    }
    OrderSize(m, o);
    assert SetOf(o, |o|) == UpTo(|m.parts|);
  }

  lemma {:induction false} SeenAllExactly(m: Message, ds: seq<nat>)
    requires Order(m, FirstSeen(ds, |ds|))
    ensures |FirstSeen(ds, |ds|)| == |m.parts| <==> forall i :: Numbered(m, i) ==> i in ds
  {
    if |FirstSeen(ds, |ds|)| == |m.parts| {
      forall i | Numbered(m, i)
        ensures i in ds
      {
        AllSeen(m, ds, i);
      }
    }
    if forall i :: Numbered(m, i) ==> i in ds { SeenAll(m, ds); }
  }

  /** Any order, any duplicates: the message comes out once when every fragment has come in, never otherwise. */
  lemma {:induction false} ExactlyOneResult(size: nat, r: Receiver, m: Message, ds: seq<nat>, parses: string -> bool)
    requires parses(FullOf(m).text)
    requires 2 <= |m.parts| <= size && Unknown(r, m) && AllNumbered(m, ds)
    ensures Results(size, r, m, ds, parses) == if forall i :: Numbered(m, i) ==> i in ds then [FullOf(m)] else []
  {
    DeliveredSoFar(size, r, m, ds, parses);
    var front := KnownSoFar(size, r, m, ds, |ds|, parses);
    SeenAllExactly(m, ds);
  }

  /** From the sender's message to the receiver's result. */
  lemma {:induction false} NotificationRoundTrip(size: nat, r: Receiver, m: Message, ds: seq<nat>, msg: string,
                                                 max: nat, parses: string -> bool)
    requires parses(msg) && max > 0 && m.parts == Notifications.Sent(msg, max) && Notifications.WeightFrom(msg, 0) > max
    requires |m.parts| <= size && Unknown(r, m) && AllNumbered(m, ds) && forall i :: Numbered(m, i) ==> i in ds
    ensures Results(size, r, m, ds, parses) == [Full(m.host, m.num, msg)]
  {
    Notifications.FragmentsRoundTrip(msg, max);
    ExactlyOneResult(size, r, m, ds, parses);
  }

  // ----- every message, in one packet or in fragments -----

  /** A packet as it arrives: a message that was not cut has no fragment id. */
  function PacketOf(host: string, session: nat, num: nat, p: Notifications.Piece): Note {
    match p
    case Alone(text) => Note(host, session, num, Whole, text)
    case Piece(idx, of, text) => Note(host, session, num, Part(idx, of), text)
  }

  /** The packets that the sender makes of a message. */
  function Packets(host: string, session: nat, num: nat, msg: string, max: nat): (ps: seq<Note>)
    requires max > 0
  {
    var pieces := Notifications.PiecesOf(msg, max);
    seq(|pieces|, i requires 0 <= i < |pieces| => PacketOf(host, session, num, pieces[i]))
  }

  /** The receiver after the first n of these deliveries. */
  function AfterAll(size: nat, r: Receiver, notes: seq<Note>, n: nat, parses: string -> bool): Receiver
    requires n <= |notes|
  {
    if n == 0 then r else Receive(size, AfterAll(size, r, notes, n - 1, parses), notes[n - 1], parses).state
  }

  function Answers(size: nat, r: Receiver, notes: seq<Note>, parses: string -> bool): (outs: seq<Option<Full>>)
    ensures |outs| == |notes|
  {
    seq(|notes|, i requires 0 <= i < |notes| =>
      Receive(size, AfterAll(size, r, notes, i, parses), notes[i], parses).out)
  }

  /** The messages that came out. */
  function Delivered(size: nat, r: Receiver, notes: seq<Note>, parses: string -> bool): seq<Full> {
    Somes(Answers(size, r, notes, parses), |notes|)
  }

  /** The receiver has none of the packets' keys, and nothing of a fragmented message with that number. */
  ghost predicate Fresh(r: Receiver, ps: seq<Note>) {
    forall i :: 0 <= i < |ps| ==>
      KeyOf(ps[i]) !in r.recent &&
      (ps[i].fragment.Part? && ps[i].host in r.collectors ==> r.collectors[ps[i].host].last != ps[i].num)
  }

  // one packet

  lemma {:induction false} Remembered(recent: seq<Key>, k: Key, size: nat)
    requires size >= 1
    ensures k in Remember(recent, k, size)
  {
    var s := recent + [k];
    assert Remember(recent, k, size)[|Remember(recent, k, size)| - 1] == s[|s| - 1];
  }

  lemma {:induction false} WholeKept(size: nat, r: Receiver, note: Note, notes: seq<Note>, n: nat,
                                     parses: string -> bool)
    requires size >= 1 && note.fragment == Whole && n <= |notes|
    requires forall k :: 0 <= k < |notes| ==> notes[k] == note
    ensures if n == 0 then AfterAll(size, r, notes, n, parses) == r
            else KeyOf(note) in AfterAll(size, r, notes, n, parses).recent
    decreases n
  {
    if n > 0 {
      WholeKept(size, r, note, notes, n - 1, parses);
      Remembered(AfterAll(size, r, notes, n - 1, parses).recent, KeyOf(note), size);
    }
  }

  lemma {:induction false} FirstOnly(outs: seq<Option<Full>>, full: Full, n: nat)
    requires n <= |outs| && forall k :: 0 <= k < |outs| ==> outs[k] == if k == 0 then Some(full) else None
    ensures Somes(outs, n) == if n == 0 then [] else [full]
    decreases n
  {
    if n > 0 { FirstOnly(outs, full, n - 1); }
  }

  lemma {:induction false} WholeOnce(size: nat, r: Receiver, note: Note, notes: seq<Note>, parses: string -> bool)
    requires size >= 1 && note.fragment == Whole && parses(note.text) && KeyOf(note) !in r.recent
    requires forall k :: 0 <= k < |notes| ==> notes[k] == note
    ensures Delivered(size, r, notes, parses) == if notes == [] then [] else [Full(note.host, note.num, note.text)]
  {
    var full, outs := Full(note.host, note.num, note.text), Answers(size, r, notes, parses);
    forall k | 0 <= k < |notes|
      ensures outs[k] == if k == 0 then Some(full) else None
    {
      WholeKept(size, r, note, notes, k, parses);
    }
    FirstOnly(outs, full, |notes|);
  }

  // fragments

  /** Which fragments were delivered. */
  function Indices(notes: seq<Note>): (ds: seq<nat>)
    ensures |ds| == |notes| && forall k :: 0 <= k < |notes| ==> ds[k] == IndexOf(notes[k])
  {
    seq(|notes|, k requires 0 <= k < |notes| => IndexOf(notes[k]))
  }

  function IndexOf(note: Note): nat { if note.fragment.Part? then note.fragment.idx else 0 }

  predicate OfMessage(m: Message, note: Note) {
    note.fragment.Part? && Numbered(m, note.fragment.idx) && note == NoteOf(m, note.fragment.idx)
  }

  lemma {:induction false} AfterSame(size: nat, r: Receiver, m: Message, notes: seq<Note>, ds: seq<nat>, n: nat,
                                     parses: string -> bool)
    requires n <= |notes| == |ds| && AllNumbered(m, ds)
    requires forall k :: 0 <= k < |notes| ==> OfMessage(m, notes[k]) && IndexOf(notes[k]) == ds[k]
    ensures AfterAll(size, r, notes, n, parses) == After(size, r, m, ds, n, parses)
    decreases n
  {
    if n > 0 {
      AfterSame(size, r, m, notes, ds, n - 1, parses);
      assert OfMessage(m, notes[n - 1]);
    }
  }

  lemma {:induction false} DeliveredSame(size: nat, r: Receiver, m: Message, notes: seq<Note>, ds: seq<nat>,
                                         parses: string -> bool)
    requires |notes| == |ds| && AllNumbered(m, ds)
    requires forall k :: 0 <= k < |notes| ==> OfMessage(m, notes[k]) && IndexOf(notes[k]) == ds[k]
    ensures Delivered(size, r, notes, parses) == Results(size, r, m, ds, parses)
  {
    forall k | 0 <= k < |notes|
      ensures Answers(size, r, notes, parses)[k] == Returned(size, r, m, ds, parses)[k]
    {
      AfterSame(size, r, m, notes, ds, k, parses);
      assert OfMessage(m, notes[k]);
    }
    assert Answers(size, r, notes, parses) == Returned(size, r, m, ds, parses);
  }

  lemma {:induction false} KeyAmong(m: Message, ps: seq<Note>, k: Key)
    requires |ps| == |m.parts| && (forall i :: 0 <= i < |ps| ==> ps[i] == NoteOf(m, i + 1)) && IsKey(k, m)
    ensures KeyOf(ps[k.fragment.idx - 1]) == k
  {
    assert ps[k.fragment.idx - 1] == NoteOf(m, k.fragment.idx);
  }

  lemma {:induction false} FreshIsUnknown(r: Receiver, m: Message, ps: seq<Note>)
    requires |ps| == |m.parts| >= 1 && (forall i :: 0 <= i < |ps| ==> ps[i] == NoteOf(m, i + 1)) && Fresh(r, ps)
    ensures Unknown(r, m)
  {
    forall q | 0 <= q < |r.recent|
      ensures !IsKey(r.recent[q], m)
    {
      if IsKey(r.recent[q], m) { KeyAmong(m, ps, r.recent[q]); }
    }
    assert ps[0] == NoteOf(m, 1);
  }

  lemma {:induction false} NumbersAmong(m: Message, ps: seq<Note>, notes: seq<Note>)
    requires |ps| == |m.parts| && forall i :: 0 <= i < |ps| ==> ps[i] == NoteOf(m, i + 1)
    requires forall k :: 0 <= k < |notes| ==> notes[k] in ps
    ensures forall k :: 0 <= k < |notes| ==> OfMessage(m, notes[k])
    ensures (forall i :: Numbered(m, i) ==> i in Indices(notes)) <==> (forall i :: 0 <= i < |ps| ==> ps[i] in notes)
  {
    forall k | 0 <= k < |notes|
      ensures OfMessage(m, notes[k])
    {
      var i :| 0 <= i < |ps| && ps[i] == notes[k];
    }
    var ds := Indices(notes);
    forall i: nat | i < |ps|
      ensures ps[i] in notes <==> i + 1 in ds
    {
      IndexAmong(m, ps, notes, i);
    }
    if forall i :: 0 <= i < |ps| ==> ps[i] in notes {
      forall i: nat | Numbered(m, i)
        ensures i in ds
      {
        assert ps[i - 1] in notes;
      }
    }
    if forall i :: Numbered(m, i) ==> i in ds {
      forall i | 0 <= i < |ps|
        ensures ps[i] in notes
      {
        assert Numbered(m, i + 1);
      }
    }
  }

  lemma {:induction false} IndexAmong(m: Message, ps: seq<Note>, notes: seq<Note>, i: nat)
    requires |ps| == |m.parts| && (forall j :: 0 <= j < |ps| ==> ps[j] == NoteOf(m, j + 1)) && i < |ps|
    requires forall k :: 0 <= k < |notes| ==> OfMessage(m, notes[k])
    ensures ps[i] in notes <==> i + 1 in Indices(notes)
  {
    var ds := Indices(notes);
    if ps[i] in notes {
      var k :| 0 <= k < |notes| && notes[k] == ps[i];
      assert ds[k] == i + 1;
    }
    if i + 1 in ds {
      var k :| 0 <= k < |ds| && ds[k] == i + 1;
      assert OfMessage(m, notes[k]) && notes[k] == ps[i];
    }
  }

  lemma {:induction false} FragmentedOnce(size: nat, r: Receiver, m: Message, ps: seq<Note>, notes: seq<Note>,
                                          msg: string, max: nat, parses: string -> bool)
    requires max > 0 && parses(msg) && Notifications.WeightFrom(msg, 0) > max && m.parts == Notifications.Sent(msg, max)
    requires |ps| == |m.parts| <= size && forall i :: 0 <= i < |ps| ==> ps[i] == NoteOf(m, i + 1)
    requires Fresh(r, ps) && forall k :: 0 <= k < |notes| ==> notes[k] in ps
    ensures Delivered(size, r, notes, parses) ==
            if forall i :: 0 <= i < |ps| ==> ps[i] in notes then [Full(m.host, m.num, msg)] else []
  {
    Notifications.FragmentsRoundTrip(msg, max);
    FreshIsUnknown(r, m, ps);
    NumbersAmong(m, ps, notes);
    DeliveredSame(size, r, m, notes, Indices(notes), parses);
    ExactlyOneResult(size, r, m, Indices(notes), parses);
  }

  /** Every message, short or long: its packets, delivered in any order and any number of times to a receiver that is
      fresh to them, give the message once when all of them came, and nothing otherwise. */
  lemma {:induction false} EveryMessageOnce(size: nat, r: Receiver, host: string, session: nat, num: nat, msg: string,
                                            max: nat, notes: seq<Note>, parses: string -> bool)
    requires max > 0 && parses(msg)
    requires var ps := Packets(host, session, num, msg, max);
             |ps| <= size && Fresh(r, ps) && forall k :: 0 <= k < |notes| ==> notes[k] in ps
    ensures var ps := Packets(host, session, num, msg, max);
            Delivered(size, r, notes, parses) ==
            if forall i :: 0 <= i < |ps| ==> ps[i] in notes then [Full(host, num, msg)] else []
  {
    var ps := Packets(host, session, num, msg, max);
    if Notifications.WeightFrom(msg, 0) <= max {
      assert ps == [ps[0]];
      forall k | 0 <= k < |notes|
        ensures notes[k] == ps[0]
      {
        assert notes[k] in ps;
      }
      WholeOnce(size, r, ps[0], notes, parses);
      assert notes != [] ==> notes[0] == ps[0];
    } else {
      var m := Message(host, session, num, Notifications.Sent(msg, max));
      assert |ps| == |m.parts| && forall i :: 0 <= i < |ps| ==> ps[i] == NoteOf(m, i + 1);
      FragmentedOnce(size, r, m, ps, notes, msg, max, parses);
    }
  }

  // ----- a history shorter than the message -----

  /** When fragment i of a round through all fragments has just come in, a key of age a is that of fragment
      i - a, from this round or the one before. */
  predicate AgeFits(m: Message, k: Key, age: int, i: int) {
    IsKey(k, m) ==> k.fragment.idx == i - age || k.fragment.idx == |m.parts| + i - age
  }

  ghost predicate Aged(recent: seq<Key>, m: Message, i: int) {
    forall q :: 0 <= q < |recent| ==> AgeFits(m, recent[q], |recent| - 1 - q, i)
  }

  lemma {:induction false} AgedNext(recent: seq<Key>, m: Message, i: nat, size: nat)
    requires Aged(recent, m, i) && |recent| <= size < |m.parts| && i < |m.parts|
    ensures MessageKey(m, i + 1) !in recent
    ensures var recent' := Remember(recent, MessageKey(m, i + 1), size); |recent'| <= size && Aged(recent', m, i + 1)
  {
    forall q | 0 <= q < |recent|
      ensures recent[q] != MessageKey(m, i + 1)
    {
      assert AgeFits(m, recent[q], |recent| - 1 - q, i);
    }
    var recent' := Remember(recent, MessageKey(m, i + 1), size);
    var drop := |recent| + 1 - |recent'|;
    forall q | 0 <= q < |recent'|
      ensures AgeFits(m, recent'[q], |recent'| - 1 - q, i + 1)
    {
      if q + drop < |recent| {
        assert recent'[q] == recent[q + drop];
        assert AgeFits(m, recent[q + drop], |recent| - 1 - (q + drop), i);
      }
    }
  }

  function Count(n: nat): (o: seq<nat>)
    ensures |o| == n && forall k :: 0 <= k < n ==> o[k] == k + 1
  {
    seq(n, k => k + 1)
  }

  /** In the middle of a round through all fragments. */
  ghost predicate InRound(r: Receiver, m: Message, i: nat, size: nat)
    requires i <= |m.parts|
  {
    Aged(r.recent, m, i) && |r.recent| <= size && Order(m, Count(i)) &&
    Collected(r.collectors, m, if i == |m.parts| then [] else Count(i))
  }

  lemma {:induction false} RoundNext(size: nat, r: Receiver, m: Message, i: nat, parses: string -> bool)
    requires parses(FullOf(m).text)
    requires size < |m.parts| && 2 <= |m.parts| && i < |m.parts| && InRound(r, m, i, size)
    ensures var x := Receive(size, r, NoteOf(m, i + 1), parses);
            InRound(x.state, m, i + 1, size) && x.out == if i + 1 == |m.parts| then Some(FullOf(m)) else None
  {
    AgedNext(r.recent, m, i, size);
    CollectNext(r.collectors, m, Count(i), i + 1, parses);
    assert Count(i) + [i + 1] == Count(i + 1);
  }

  lemma {:induction false} RoundWraps(r: Receiver, m: Message, size: nat)
    requires size < |m.parts| && InRound(r, m, |m.parts|, size)
    ensures InRound(r, m, 0, size)
  {
    forall q | 0 <= q < |r.recent|
      ensures AgeFits(m, r.recent[q], |r.recent| - 1 - q, 0)
    {
      assert AgeFits(m, r.recent[q], |r.recent| - 1 - q, |m.parts|);
    }
  }

  datatype Round = Round(state: Receiver, results: seq<Full>)

  /** The fragments after the i-th, in order. */
  function InOrder(size: nat, r: Receiver, m: Message, i: nat, parses: string -> bool): Round
    requires i <= |m.parts|
    decreases |m.parts| - i
  {
    if i == |m.parts| then Round(r, []) else
    var x := Receive(size, r, NoteOf(m, i + 1), parses);
    var rest := InOrder(size, x.state, m, i + 1, parses);
    Round(rest.state, (if x.out.Some? then [x.out.value] else []) + rest.results)
  }

  lemma {:induction false} RoundGives(size: nat, r: Receiver, m: Message, i: nat, parses: string -> bool)
    requires parses(FullOf(m).text)
    requires size < |m.parts| && 2 <= |m.parts| && i <= |m.parts| && InRound(r, m, i, size)
    ensures var x := InOrder(size, r, m, i, parses);
            InRound(x.state, m, |m.parts|, size) && x.results == if i == |m.parts| then [] else [FullOf(m)]
    decreases |m.parts| - i
  {
    if i < |m.parts| {
      RoundNext(size, r, m, i, parses);
      RoundGives(size, Receive(size, r, NoteOf(m, i + 1), parses).state, m, i + 1, parses);
    }
  }

  /** With one fragment more than the history holds, a repeated transmission is taken for a new message: the
      bound of ExactlyOneResult is exact. */
  lemma {:induction false} ShortHistoryRepeats(size: nat, r: Receiver, m: Message, parses: string -> bool)
    requires parses(FullOf(m).text)
    requires size < |m.parts| && 2 <= |m.parts| && Unknown(r, m) && |r.recent| <= size
    ensures var first := InOrder(size, r, m, 0, parses);
            first.results == [FullOf(m)] && InOrder(size, first.state, m, 0, parses).results == [FullOf(m)]
  {
    var first := InOrder(size, r, m, 0, parses);
    RoundGives(size, r, m, 0, parses);
    RoundWraps(first.state, m, size);
    RoundGives(size, first.state, m, 0, parses);
  }
}
