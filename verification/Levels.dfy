/** Price levels of the reference book: the FIFO queue of one side at one price. */
module Levels {
  import opened Orders
  import opened ReferenceBook

  predicate At(o: Order, s: Side, p: nat) { o.side == s && o.price == p }

  /** The orders resting on side s at price p, in arrival order. */
  function Level(b: Book, s: Side, p: nat): (q: seq<Order>)
    ensures |q| <= |b|
  {
    if b == [] then [] else
      Level(b[..|b| - 1], s, p) + (if At(b[|b| - 1], s, p) then [b[|b| - 1]] else [])
  }

  lemma {:induction false} LevelOfSum(a: Book, b: Book, s: Side, p: nat)
    ensures Level(a + b, s, p) == Level(a, s, p) + Level(b, s, p)
  {
    if b == [] {
      assert a + b == a;
    } else {
      var n := |b| - 1;
      assert (a + b)[..|a + b| - 1] == a + b[..n];
      LevelOfSum(a, b[..n], s, p);
    }
  }

  lemma LevelOfOne(o: Order, s: Side, p: nat)
    ensures Level([o], s, p) == if At(o, s, p) then [o] else []
  {
    assert [o][..0] == [];
  }

  /** An order's neighbours in its level are those of the book around it. */
  lemma LevelAround(b: Book, i: nat, s: Side, p: nat)
    requires i < |b|
    ensures Level(b, s, p) ==
      Level(b[..i], s, p) + (if At(b[i], s, p) then [b[i]] else []) + Level(b[i + 1..], s, p)
    ensures Level(Without(b, i), s, p) == Level(b[..i], s, p) + Level(b[i + 1..], s, p)
  {
    assert b == b[..i] + [b[i]] + b[i + 1..];
    LevelOfSum(b[..i] + [b[i]], b[i + 1..], s, p);
    LevelOfSum(b[..i], [b[i]], s, p);
    LevelOfOne(b[i], s, p);
    LevelOfSum(b[..i], b[i + 1..], s, p);
  }

  lemma LevelOfUpdate(b: Book, i: nat, r: Order, s: Side, p: nat)
    requires i < |b| && r.side == b[i].side && r.price == b[i].price
    ensures Level(b[i := r], s, p) ==
      Level(b[..i], s, p) + (if At(r, s, p) then [r] else []) + Level(b[i + 1..], s, p)
  {
    LevelAround(b[i := r], i, s, p);
    assert b[i := r][..i] == b[..i] && b[i := r][i + 1..] == b[i + 1..];
  }

  lemma LevelOfAppend(b: Book, o: Order, s: Side, p: nat)
    ensures Level(b + [o], s, p) == Level(b, s, p) + (if At(o, s, p) then [o] else [])
  {
    assert (b + [o])[..|b|] == b;
  }

  lemma {:induction false} LevelMembers(b: Book, s: Side, p: nat)
    ensures forall o :: o in Level(b, s, p) <==> o in b && At(o, s, p)
  {
    if b != [] {
      LevelMembers(b[..|b| - 1], s, p);
      assert b == b[..|b| - 1] + [b[|b| - 1]];
    }
  }

  predicate DistinctIds(q: seq<Order>) {
    forall i, j :: 0 <= i < j < |q| ==> q[i].id != q[j].id
  }

  lemma {:induction false} LevelIsDistinct(b: Book, s: Side, p: nat)
    requires DistinctIds(b)
    ensures DistinctIds(Level(b, s, p))
  {
    if b != [] {
      LevelIsDistinct(b[..|b| - 1], s, p);
      LevelMembers(b[..|b| - 1], s, p);
      var q := Level(b[..|b| - 1], s, p);
      forall i | 0 <= i < |q| ensures q[i].id != b[|b| - 1].id {
        assert q[i] in q && q[i] in b[..|b| - 1];
      }
    }
  }

  lemma LevelEmpty(b: Book, s: Side, p: nat)
    ensures Level(b, s, p) == [] <==> forall i :: 0 <= i < |b| ==> !At(b[i], s, p)
  {
    LevelMembers(b, s, p);
    if Level(b, s, p) != [] {
      assert Level(b, s, p)[0] in b;
    } else {
      assert forall i :: 0 <= i < |b| && At(b[i], s, p) ==> b[i] in Level(b, s, p);
    }
  }

  /** Nothing rests on side s at a better price than p. */
  predicate NoneBetter(b: Book, s: Side, p: int) {
    forall i :: 0 <= i < |b| && b[i].side == s ==>
      if s.Buy? then b[i].price <= p else p <= b[i].price
  }

  /** The head of the best non-empty level is the order a full search would pick. */
  lemma HeadIsBest(b: Book, s: Side, p: nat)
    requires NoneBetter(b, s, p) && Level(b, s, p) != []
    ensures var i := Best(b, s);
      i != -1 && b[i].side == s && b[i].price == p && b[i] == Level(b, s, p)[0] && Level(b[..i], s, p) == []
  {
    LevelEmpty(b, s, p);
    BestIsBest(b, s);
    var i := Best(b, s);
    var j :| 0 <= j < |b| && At(b[j], s, p);
    assert !Beats(s, b[j].price, b[i].price);
    LevelEmpty(b[..i], s, p);
    LevelAround(b, i, s, p);
  }

  /** The marked prices are exactly the non-empty levels; side s at price x is exempt. */
  ghost predicate MarksMatch(m: iset<(Side, int)>, b: Book, s: Side, x: int) {
    forall t, p :: 0 <= p < MAX_PRICE && (t, p) != (s, x) ==> ((t, p) in m <==> Level(b, t, p) != [])
  }

  lemma EmptyMatches(m: iset<(Side, int)>)
    requires forall t, p :: (t, p) !in m
    ensures MarksMatch(m, [], Buy, -1)
  {}

  lemma RestMatches(m: iset<(Side, int)>, m': iset<(Side, int)>, b: Book, o: Order)
    requires MarksMatch(m, b, Buy, -1)
    requires m' == if o.price < MAX_PRICE && Level(b, o.side, o.price) == [] then m + iset{(o.side, o.price)} else m
    ensures MarksMatch(m', b + [o], Buy, -1)
  {
    forall t, p | 0 <= p < MAX_PRICE ensures (t, p) in m' <==> Level(b + [o], t, p) != [] {
      LevelOfAppend(b, o, t, p);
    }
  }

  lemma MatchedPrice(m: iset<(Side, int)>, b: Book, i: nat)
    requires MarksMatch(m, b, Buy, -1) && i < |b| && b[i].price < MAX_PRICE
    ensures (b[i].side, b[i].price) in m
  {
    LevelEmpty(b, b[i].side, b[i].price);
  }

  lemma ClearedMatches(m: iset<(Side, int)>, b: Book, s: Side, p: nat)
    requires MarksMatch(m, b, s, p) && Level(b, s, p) == []
    ensures MarksMatch(m - iset{(s, p)}, b, Buy, -1)
  {}

  /** Side s has no marked price better than `bound`, so no resting order either. */
  lemma BoundFromMarks(m: iset<(Side, int)>, b: Book, s: Side, bound: int)
    requires MarksMatch(m, b, Buy, -1) && WellFormed(b)
    requires forall p :: 0 <= p < MAX_PRICE && (s, p) in m ==> if s.Buy? then p <= bound else bound <= p
    ensures NoneBetter(b, s, bound)
  {
    forall i | 0 <= i < |b| && b[i].side == s ensures if s.Buy? then b[i].price <= bound else bound <= b[i].price {
      MatchedPrice(m, b, i);
    }
  }

  lemma RestBounds(b: Book, o: Order, s: Side, bound: int, bound': int)
    requires NoneBetter(b, s, bound)
    requires bound' == if o.side == s && (if s.Buy? then o.price > bound else o.price < bound) then o.price else bound
    ensures NoneBetter(b + [o], s, bound')
  {}
}
