/** The monitor's view of one book, as a table of orders rebuilt from market data (orderbook.py). */
module FeedTable {
  import opened Orders

  /** (side, price, remaining, touched_at) of one order reference. */
  datatype Entry = Entry(side: Side, price: nat, remaining: int, touched: real)

  type Table = map<nat, Entry>

  /** What one message does to the table; only market-data messages reach it. */
  function Applied(t: Table, e: Event, now: real): Table {
    if !e.Itch? then t else
      match e.kind
      case Added => t[e.id := Entry(e.side, e.price, e.qty, now)]
      case Removed => t - {e.id}
      case Executed =>
        if e.id !in t then t
        else if t[e.id].remaining - e.qty <= 0 then t - {e.id}
        else t[e.id := t[e.id].(remaining := t[e.id].remaining - e.qty, touched := now)]
  }

  predicate Positive(t: Table) {
    forall id :: id in t ==> t[id].remaining > 0
  }

  /** Shares are unsigned, so no message makes a remaining quantity negative. */
  predicate NonNegative(t: Table) {
    forall id :: id in t ==> t[id].remaining >= 0
  }

  /** Total of a weight over all entries. */
  ghost function Sum(t: Table, w: Entry -> int): int
    decreases |t|
  {
    if t == map[] then 0 else
      var id :| id in t;
      w(t[id]) + Sum(t - {id}, w)
  }

  /** The total does not depend on the order of summation. */
  lemma {:induction false} SumPick(t: Table, id: nat, w: Entry -> int)
    requires id in t
    ensures Sum(t, w) == w(t[id]) + Sum(t - {id}, w)
    decreases |t|
  {
    var first :| first in t && Sum(t, w) == w(t[first]) + Sum(t - {first}, w);
    if first != id {
      SumPick(t - {first}, id, w);
      SumPick(t - {id}, first, w);
      assert t - {first} - {id} == t - {id} - {first};
    }
  }

  lemma SumInsert(t: Table, id: nat, e: Entry, w: Entry -> int)
    requires id !in t
    ensures Sum(t[id := e], w) == Sum(t, w) + w(e)
  {
    SumPick(t[id := e], id, w);
    assert t[id := e] - {id} == t;
  }

  lemma SumUpdate(t: Table, id: nat, e: Entry, w: Entry -> int)
    requires id in t
    ensures Sum(t[id := e], w) == Sum(t, w) - w(t[id]) + w(e)
  {
    SumPick(t, id, w);
    SumPick(t[id := e], id, w);
    assert t[id := e] - {id} == t - {id};
  }

  lemma {:induction false} SumBounds(t: Table, v: Entry -> int, w: Entry -> int)
    requires forall id :: id in t ==> v(t[id]) <= w(t[id])
    ensures Sum(t, v) <= Sum(t, w)
    decreases |t|
  {
    if t != map[] {
      var id :| id in t;
      SumPick(t, id, v);
      SumPick(t, id, w);
      SumBounds(t - {id}, v, w);
    }
  }

  function QuantityAt(s: Side, p: nat): Entry -> int {
    (e: Entry) => if e.side == s && e.price == p then e.remaining else 0
  }

  function CountAt(s: Side, p: nat): Entry -> int {
    (e: Entry) => if e.side == s && e.price == p then 1 else 0
  }

  /** Aggregate quantity and number of orders of side s at price p. */
  ghost function Quantity(t: Table, s: Side, p: nat): int { Sum(t, QuantityAt(s, p)) }

  ghost function Count(t: Table, s: Side, p: nat): int { Sum(t, CountAt(s, p)) }

  /** A level has orders exactly when some order is stored there; with positive entries it then has quantity. */
  lemma LevelSigns(t: Table, s: Side, p: nat)
    requires NonNegative(t)
    ensures 0 <= Count(t, s, p) && 0 <= Quantity(t, s, p)
    ensures Count(t, s, p) > 0 <==> exists id :: id in t && t[id].side == s && t[id].price == p
    ensures Count(t, s, p) == 0 ==> Quantity(t, s, p) == 0
    ensures Positive(t) ==> Count(t, s, p) <= Quantity(t, s, p)
  {
    var zero := (e: Entry) => 0;
    SumZero(t, zero);
    SumBounds(t, zero, CountAt(s, p));
    SumBounds(t, zero, QuantityAt(s, p));
    if Positive(t) { SumBounds(t, CountAt(s, p), QuantityAt(s, p)); }
    if id :| id in t && t[id].side == s && t[id].price == p {
      SumPick(t, id, CountAt(s, p));
      SumBounds(t - {id}, zero, CountAt(s, p));
      SumZero(t - {id}, zero);
    } else {
      SumBounds(t, CountAt(s, p), zero);
      SumBounds(t, QuantityAt(s, p), zero);
    }
  }

  lemma {:induction false} SumZero(t: Table, w: Entry -> int)
    requires forall e :: w(e) == 0
    ensures Sum(t, w) == 0
    decreases |t|
  {
    if t != map[] {
      var id :| id in t;
      SumPick(t, id, w);
      SumZero(t - {id}, w);
    }
  }

  /** Bid x and ask y are stored at crossing prices. */
  predicate CrossPair(t: Table, x: nat, y: nat) {
    x in t && y in t && t[x].side.Buy? && t[y].side.Sell? && t[x].price >= t[y].price
  }

  ghost predicate Crossed(t: Table) {
    exists x, y :: CrossPair(t, x, y)
  }

  /** Reference r takes part in a cross. */
  ghost predicate Crossing(t: Table, r: nat) {
    exists q :: CrossPair(t, r, q) || CrossPair(t, q, r)
  }

  /** (touched, reference) order, oldest first. */
  predicate Before(t: Table, r: nat, q: nat)
    requires r in t && q in t
  {
    t[r].touched < t[q].touched || (t[r].touched == t[q].touched && r <= q)
  }

  /** The oldest order that takes part in a cross. */
  ghost predicate IsVictim(t: Table, v: nat) {
    v in t && Crossing(t, v) && forall q :: q in t && Crossing(t, q) ==> Before(t, v, q)
  }

  ghost predicate Oldest(t: Table, s: set<nat>, v: nat)
    requires s <= t.Keys
  {
    v in s && forall q :: q in s ==> Before(t, v, q)
  }

  lemma {:induction false} OldestExists(t: Table, s: set<nat>)
    requires s <= t.Keys && s != {}
    ensures exists v :: Oldest(t, s, v)
  {
    var r :| r in s;
    var rest := s - {r};
    if rest == {} {
      assert s == {r};
      assert Oldest(t, s, r);
    } else {
      OldestExists(t, rest);
      var v :| Oldest(t, rest, v);
      assert s == rest + {r};
      assert Oldest(t, s, if Before(t, r, v) then r else v);
    }
  }

  ghost function Victim(t: Table): (v: nat)
    requires Crossed(t)
    ensures IsVictim(t, v)
  {
    var x, y :| CrossPair(t, x, y);
    var s := set r | r in t && Crossing(t, r);
    assert x in s;
    OldestExists(t, s);
    var v :| Oldest(t, s, v);
    assert forall q :: q in t && Crossing(t, q) ==> q in s;
    v
  }

  /** Evict the oldest crossing order, at most n times, while the table is crossed. */
  ghost function Repaired(t: Table, n: nat): Table {
    if n == 0 || !Crossed(t) then t else Repaired(t - {Victim(t)}, n - 1)
  }
}
