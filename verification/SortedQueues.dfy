/** Lists kept in increasing order, as the ordering function (pof.c) and the delay queue (delay.c) keep them. */
module SortedQueues {

  datatype Entry<T> = Entry(num: int, item: T)

  ghost predicate Sorted<T>(q: seq<Entry<T>>) {
    forall i, j :: 0 <= i < j < |q| ==> q[i].num <= q[j].num
  }

  /** The first place at or after i whose number is not smaller. */
  function PlaceFor<T>(q: seq<Entry<T>>, num: int, i: nat): (k: nat)
    requires i <= |q|
    ensures i <= k <= |q|
    decreases |q| - i
  {
    if i < |q| && q[i].num < num then PlaceFor(q, num, i + 1) else i
  }

  function Inserted<T>(q: seq<Entry<T>>, e: Entry<T>): seq<Entry<T>> {
    var k := PlaceFor(q, e.num, 0);
    q[..k] + [e] + q[k..]
  }

  lemma {:induction false} PlaceSplits<T>(q: seq<Entry<T>>, num: int, i: nat)
    requires i <= |q|
    ensures var k := PlaceFor(q, num, i);
            (forall j :: i <= j < k ==> q[j].num < num) && (k < |q| ==> q[k].num >= num)
    decreases |q| - i
  {
    if i < |q| && q[i].num < num { PlaceSplits(q, num, i + 1); }
  }

  lemma {:induction false} PlaceBetween<T>(q: seq<Entry<T>>, num: int, j: nat)
    requires Sorted(q) && j < |q|
    ensures q[j].num < num <==> j < PlaceFor(q, num, 0)
  {
    PlaceSplits(q, num, 0);
    var k := PlaceFor(q, num, 0);
    if k < j { assert q[k].num <= q[j].num; }
  }

  /** The queue stays sorted, and a new packet comes before those with the same number. */
  lemma {:induction false} InsertSorts<T>(q: seq<Entry<T>>, e: Entry<T>)
    requires Sorted(q)
    ensures Sorted(Inserted(q, e))
    ensures forall j :: 0 <= j < |q| ==> (q[j].num < e.num <==> j < PlaceFor(q, e.num, 0))
  {
    var k, r := PlaceFor(q, e.num, 0), Inserted(q, e);
    forall i, j | 0 <= i < j < |r|
      ensures r[i].num <= r[j].num
    {
      if i != k { PlaceBetween(q, e.num, if i < k then i else i - 1); }
      if j != k { PlaceBetween(q, e.num, if j < k then j else j - 1); }
    }
    forall j | 0 <= j < |q|
      ensures q[j].num < e.num <==> j < k
    {
      PlaceBetween(q, e.num, j);
    }
  }

  lemma {:induction false} InsertAdds<T>(q: seq<Entry<T>>, e: Entry<T>)
    ensures multiset(Inserted(q, e)) == multiset(q) + multiset{e}
  {
    var k := PlaceFor(q, e.num, 0);
    assert q == q[..k] + q[k..];
  }

  function Removed<T>(q: seq<Entry<T>>, k: nat): seq<Entry<T>>
    requires k < |q|
  {
    q[..k] + q[k + 1..]
  }

  lemma {:induction false} RemoveKeeps<T>(q: seq<Entry<T>>, k: nat)
    requires k < |q| && Sorted(q)
    ensures Sorted(Removed(q, k)) && multiset(q) == multiset(Removed(q, k)) + multiset{q[k]}
  {
    assert q == q[..k] + [q[k]] + q[k + 1..];
  }

  /** What was held, with what came in, is what went out and what is held now. */
  lemma {:induction false} BagsMove<T>(held: multiset<T>, out: multiset<T>, q: multiset<T>, x: multiset<T>,
                                       out': multiset<T>, q': multiset<T>)
    requires held == out + q && q + x == out' + q'
    ensures held + x == (out + out') + q'
  {
    assert held + x == out + (q + x);
  }
}
