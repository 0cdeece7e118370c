/** Cutting a notification into fragments (notification.c). */
module Notifications {

  const MAX_NOTIFICATION_LEN: nat := 1200

  /** A quote takes two characters once it is escaped. */
  function CharWeight(c: char): nat { if c == '"' then 2 else 1 }

  function WeightFrom(msg: string, at: nat): nat
    requires at <= |msg|
    decreases |msg| - at
  {
    if at == |msg| then 0 else CharWeight(msg[at]) + WeightFrom(msg, at + 1)
  }

  function Quotes(s: string, n: nat): nat
    requires n <= |s|
  {
    if n == 0 then 0 else Quotes(s, n - 1) + (if s[n - 1] == '"' then 1 else 0)
  }

  /** How many fragments the sender announces, for fragments of a given size. */
  function FragmentCount(weight: nat, max: nat): nat
    requires max > 0
  {
    weight / max + (if weight > weight / max * max then 1 else 0)
  }

  /** How many characters one fragment takes when this much room is left in it; the last quote may take one
      more than there is. */
  function CutLength(msg: string, at: nat, room: nat): (c: nat)
    requires at <= |msg|
    ensures at + c <= |msg|
    decreases |msg| - at
  {
    if room == 0 || at == |msg| then 0
    else 1 + CutLength(msg, at + 1, if CharWeight(msg[at]) >= room then 0 else room - CharWeight(msg[at]))
  }

  /** Where fragment n begins. */
  function Begin(msg: string, n: nat, max: nat): (b: nat)
    ensures b <= |msg|
  {
    if n == 0 then 0 else
    var b := Begin(msg, n - 1, max);
    b + CutLength(msg, b, max)
  }

  function Fragments(msg: string, n: nat, max: nat): (r: seq<string>)
    ensures |r| == n
  {
    if n == 0 then [] else
    var b := Begin(msg, n - 1, max);
    Fragments(msg, n - 1, max) + [msg[b..b + CutLength(msg, b, max)]]
  }

  function Concat(parts: seq<string>, n: nat): string
    requires n <= |parts|
  {
    if n == 0 then "" else Concat(parts, n - 1) + parts[n - 1]
  }

  // ----- what a fragment weighs -----

  /** A fragment is full, by at most one too much, unless it reaches the end of the message. */
  lemma {:induction false} CutWeight(msg: string, at: nat, room: nat)
    requires at <= |msg|
    ensures var c := CutLength(msg, at, room);
            c <= room && WeightFrom(msg, at) - WeightFrom(msg, at + c) <= room + 1 &&
            (at + c < |msg| ==> WeightFrom(msg, at) - WeightFrom(msg, at + c) >= room) &&
            WeightFrom(msg, at + c) <= WeightFrom(msg, at)
    decreases |msg| - at
  {
    if room > 0 && at < |msg| {
      CutWeight(msg, at + 1, if CharWeight(msg[at]) >= room then 0 else room - CharWeight(msg[at]));
    }
  }

  /** The weight of a piece is its length and its quotes. */
  lemma {:induction false} PieceWeight(msg: string, a: nat, n: nat)
    requires a + n <= |msg|
    ensures WeightFrom(msg, a) - WeightFrom(msg, a + n) == n + Quotes(msg[a..a + n], n)
    decreases n
  {
    if n > 0 {
      PieceWeight(msg, a, n - 1);
      QuotesPrefix(msg[a..a + n], msg[a..a + n - 1], n - 1);
    }
  }

  lemma {:induction false} QuotesPrefix(s: string, t: string, n: nat)
    requires n <= |s| && n <= |t| && s[..n] == t[..n]
    ensures Quotes(s, n) == Quotes(t, n)
    decreases n
  {
    if n > 0 {
      assert s[..n][n - 1] == t[..n][n - 1] && s[..n][..n - 1] == s[..n - 1] && t[..n][..n - 1] == t[..n - 1];
      QuotesPrefix(s, t, n - 1);
    }
  }

  // ----- the fragments together -----

  lemma {:induction false} ConcatPrefix(parts: seq<string>, last: string, n: nat)
    requires n <= |parts|
    ensures Concat(parts + [last], n) == Concat(parts, n)
    decreases n
  {
    if n > 0 { ConcatPrefix(parts, last, n - 1); }
  }

  lemma {:induction false} ConcatSnoc(parts: seq<string>, last: string)
    ensures Concat(parts + [last], |parts| + 1) == Concat(parts, |parts|) + last
  {
    ConcatPrefix(parts, last, |parts|);
  }

  lemma {:induction false} JoinSlices(msg: string, b: nat, e: nat)
    requires b <= e <= |msg|
    ensures msg[..b] + msg[b..e] == msg[..e]
  {
  }

  lemma {:induction false} FragmentsConcat(msg: string, n: nat, max: nat)
    ensures Concat(Fragments(msg, n, max), n) == msg[..Begin(msg, n, max)]
    decreases n
  {
    if n > 0 {
      FragmentsConcat(msg, n - 1, max);
      var b := Begin(msg, n - 1, max);
      var e := b + CutLength(msg, b, max);
      ConcatSnoc(Fragments(msg, n - 1, max), msg[b..e]);
      JoinSlices(msg, b, e);
    }
  }

  /** n times max. */
  function Room(n: nat, max: nat): nat { if n == 0 then 0 else Room(n - 1, max) + max }

  lemma {:induction false} RoomIsProduct(n: nat, max: nat)
    ensures Room(n, max) == n * max
    decreases n
  {
    if n > 0 {
      RoomIsProduct(n - 1, max);
      assert n * max == (n - 1) * max + max;
    }
  }

  /** Every fragment before the end of the message takes its full weight off it. */
  lemma {:induction false} FragmentsAdvance(msg: string, n: nat, max: nat)
    ensures Begin(msg, n, max) == |msg| || WeightFrom(msg, 0) >= Room(n, max) + WeightFrom(msg, Begin(msg, n, max))
    decreases n
  {
    if n > 0 {
      FragmentsAdvance(msg, n - 1, max);
      CutWeight(msg, Begin(msg, n - 1, max), max);
    }
  }

  lemma {:induction false} WeightLeft(msg: string, at: nat)
    requires at < |msg|
    ensures WeightFrom(msg, at) > 0
  {
  }

  lemma {:induction false} CountSuffices(weight: nat, max: nat)
    requires max > 0
    ensures weight <= FragmentCount(weight, max) * max < weight + max
  {
    var q := weight / max;
    assert weight == q * max + weight % max;
    assert (q + 1) * max == q * max + max;
  }

  /** Every fragment is short enough for the buffer, and over the limit by at most one escaped quote. */
  predicate ShortEnough(f: string, max: nat) { |f| <= max && |f| + Quotes(f, |f|) <= max + 1 }

  lemma {:induction false} FragmentsFit(msg: string, n: nat, max: nat, i: nat)
    requires i < n
    ensures ShortEnough(Fragments(msg, n, max)[i], max)
    decreases n
  {
    if i < n - 1 {
      FragmentsFit(msg, n - 1, max, i);
    } else {
      var b := Begin(msg, n - 1, max);
      CutWeight(msg, b, max);
      PieceWeight(msg, b, CutLength(msg, b, max));
    }
  }

  /** The fragments that the sender sends, for every message. */
  function Sent(msg: string, max: nat): seq<string>
    requires max > 0
  {
    Fragments(msg, FragmentCount(WeightFrom(msg, 0), max), max)
  }

  /** Together they are the message, the announced number of them suffices, and each one fits. */
  lemma {:induction false} FragmentsRoundTrip(msg: string, max: nat)
    requires max > 0
    ensures Concat(Sent(msg, max), |Sent(msg, max)|) == msg
    ensures forall i :: 0 <= i < |Sent(msg, max)| ==> ShortEnough(Sent(msg, max)[i], max)
    ensures WeightFrom(msg, 0) > max ==> |Sent(msg, max)| >= 2
  {
    var w := WeightFrom(msg, 0);
    var n := FragmentCount(w, max);
    CountSuffices(w, max);
    RoomIsProduct(n, max);
    FragmentsConcat(msg, n, max);
    FragmentsAdvance(msg, n, max);
    if Begin(msg, n, max) < |msg| { WeightLeft(msg, Begin(msg, n, max)); }
    assert msg[..|msg|] == msg;
    forall i | 0 <= i < n
      ensures ShortEnough(Sent(msg, max)[i], max)
    {
      FragmentsFit(msg, n, max, i);
    }
    if n == 1 { assert n * max == max; }
  }

  /** What goes into one packet: the whole message, or a fragment with its number and the number of all. */
  datatype Piece = Alone(text: string) | Piece(idx: nat, of: nat, text: string)

  function PiecesOf(msg: string, max: nat): (ps: seq<Piece>)
    requires max > 0
  {
    if WeightFrom(msg, 0) <= max then [Alone(msg)]
    else var fs := Sent(msg, max); seq(|fs|, i requires 0 <= i < |fs| => Piece(i + 1, |fs|, fs[i]))
  }

  // ----- the loop -----

  lemma {:induction false} ZeroEnds(msg: string, k: nat)
    requires '\0' !in msg && k <= |msg|
    ensures (msg + ['\0'])[k] == '\0' <==> k == |msg|
  {
    if k < |msg| { assert (msg + ['\0'])[k] == msg[k]; }
  }

  /** Count characters until the fragment is full or the terminating zero is met. */
  method CutFragment(buf: string, msg: string, begin: nat, max: nat) returns (l: nat)
    requires buf == msg + ['\0'] && '\0' !in msg && begin <= |msg|
    ensures l == CutLength(msg, begin, max)
  {
    l := 0;
    var q := 0;
    while l + q < max
      invariant begin + l <= |msg|
      invariant CutLength(msg, begin, max) == l + CutLength(msg, begin + l, if l + q < max then max - l - q else 0)
      decreases |msg| - begin - l
    {
      ZeroEnds(msg, begin + l);
      if buf[begin + l] == '\0' {
        break;
      }
      if buf[begin + l] == '"' { q := q + 1; }
      l := l + 1;
    }
  }

  method CountQuotes(msg: string) returns (quotes: nat)
    ensures quotes == Quotes(msg, |msg|)
  {
    quotes := 0;
    for i := 0 to |msg|
      invariant quotes == Quotes(msg, i)
    {
      if msg[i] == '"' { quotes := quotes + 1; }
    }
  }

  /** send_notification_message: one packet, or the numbered fragments. */
  method SendNotification(msg: string) returns (sent: seq<Piece>)
    requires '\0' !in msg
    ensures sent == PiecesOf(msg, MAX_NOTIFICATION_LEN)
  {
    var max := MAX_NOTIFICATION_LEN;
    var quotes := CountQuotes(msg);
    PieceWeight(msg, 0, |msg|);
    assert msg[0..0 + |msg|] == msg;
    if |msg| + quotes <= max { return [Alone(msg)]; }
    var fragments := (|msg| + quotes) / max;
    if |msg| + quotes > fragments * max { fragments := fragments + 1; }
    sent := CutAll(msg, fragments, max);
  }

  method CutAll(msg: string, fragments: nat, max: nat) returns (sent: seq<Piece>)
    requires '\0' !in msg
    ensures |sent| == fragments
    ensures forall i :: 0 <= i < fragments ==> sent[i] == Piece(i + 1, fragments, Fragments(msg, fragments, max)[i])
  {
    var buf := msg + ['\0'];
    var begin: nat := 0;
    sent := [];
    for i := 0 to fragments
      invariant begin == Begin(msg, i, max) && |sent| == i
      invariant forall j :: 0 <= j < i ==> sent[j] == Piece(j + 1, fragments, Fragments(msg, i, max)[j])
    {
      var l := CutFragment(buf, msg, begin, max);
      var fragment := buf[begin..begin + l];
      assert fragment == msg[begin..begin + l];
      sent := sent + [Piece(i + 1, fragments, fragment)];
      begin := begin + l;
    }
  }
}
