/** Price-time priority, said of the outcome alone: which resting orders an incoming order takes from, and what becomes
    of what is left of it (orderbook.h:250-378). */
module Priority {
  import opened Orders
  import opened ReferenceBook
  import opened DropCopyLedger

  /** Order j goes before order i of the same side: a better price, or the same price and an earlier arrival. */
  predicate Prior(b: Book, j: nat, i: nat)
    requires i < |b| && j < |b|
  {
    && b[j].side == b[i].side
    && (Beats(b[i].side, b[j].price, b[i].price) || (b[j].price == b[i].price && j < i))
  }

  /** Order i of b has lost shares by the time the book is m. */
  predicate LostShares(b: Book, i: nat, m: Book)
    requires i < |b|
  {
    RestingShares(m, b[i].id) < b[i].qty
  }

  /** A match brings in no order but the incoming one. */
  lemma {:induction false} MatchIds(b: Book, o: Order, id: nat)
    requires WellFormed(b) && id in ById(Match(b, o).book)
    ensures id in ById(b) || id == o.id
    decreases |b|
  {
    hide Match, Best, ById, FillEvents, RestEvents, RejectEvents;
    MatchUnfolds(b, o);
    ByIdWith(b, o);
    var i := Best(b, o.side.Other());
    if o.qty > 0 && i != -1 && Crosses(o, b[i].price) && b[i].client != o.client {
      if o.qty >= b[i].qty {
        ByIdWithout(b, i);
        WithoutIsWellFormed(b, i);
        WithoutAt(b, i);
        MatchIds(Without(b, i), o.(qty := o.qty - b[i].qty), id);
      } else {
        ByIdUpdated(b, i, b[i].(qty := b[i].qty - o.qty));
      }
    }
  }

  /** Orders that the incoming order does not cross, its own side among them, are as they were. */
  lemma {:induction false} OthersUntouched(b: Book, o: Order, k: nat)
    requires WellFormed(b) && (forall j :: 0 <= j < |b| ==> b[j].id != o.id) && k < |b|
    requires b[k].side == o.side || !Crosses(o, b[k].price)
    ensures b[k].id in ById(Match(b, o).book) && ById(Match(b, o).book)[b[k].id] == b[k]
    decreases |b|
  {
    hide Match, Best, ById, FillEvents, RestEvents, RejectEvents, Without;
    MatchUnfolds(b, o);
    ByIdAt(b, k);
    ByIdWith(b, o);
    BestIsBest(b, o.side.Other());
    var i := Best(b, o.side.Other());
    if o.qty > 0 && i != -1 && Crosses(o, b[i].price) && b[i].client != o.client {
      if o.qty >= b[i].qty {
        WithoutIsWellFormed(b, i);
        WithoutAt(b, i);
        OthersUntouched(Without(b, i), o.(qty := o.qty - b[i].qty), if k < i then k else k - 1);
      } else {
        ByIdUpdated(b, i, b[i].(qty := b[i].qty - o.qty));
      }
    }
  }

  /** If an order lost shares, every order that goes before it is gone. */
  lemma {:induction false} PriorityRespected(b: Book, o: Order, j: nat, i: nat)
    requires WellFormed(b) && (forall k :: 0 <= k < |b| ==> b[k].id != o.id)
    requires i < |b| && j < |b| && Prior(b, j, i) && LostShares(b, i, Match(b, o).book)
    ensures RestingShares(Match(b, o).book, b[j].id) == 0
    decreases |b|
  {
    hide Match, Best, ById, FillEvents, RestEvents, RejectEvents, Without;
    MatchUnfolds(b, o);
    ByIdAt(b, i);
    ByIdWith(b, o);
    BestIsBest(b, o.side.Other());
    var best := Best(b, o.side.Other());
    if o.qty > 0 && best != -1 && Crosses(o, b[best].price) && b[best].client != o.client {
      if o.qty >= b[best].qty {
        var rest, o' := Without(b, best), o.(qty := o.qty - b[best].qty);
        WithoutIsWellFormed(b, best);
        WithoutAt(b, best);
        ByIdWithout(b, best);
        if j == best {
          if b[j].id in ById(Match(rest, o').book) { MatchIds(rest, o', b[j].id); }
        } else if i != best {
          PriorityRespected(rest, o', if j < best then j else j - 1, if i < best then i else i - 1);
        }
      } else {
        ByIdUpdated(b, best, b[best].(qty := b[best].qty - o.qty));
      }
    }
  }

  /** The fills of the incoming order, as its drop copies report them. */
  lemma FillShares(o: Order, r: Order, id: nat)
    requires o.id != r.id
    ensures FilledShares(FillEvents(o, r) + [Freed(id)], o.id) == Min(o.qty, r.qty)
  {
    var es := FillEvents(o, r);
    SharesSum(es, [Freed(id)], o.id);
    SharesSum([es[0], es[1]] + [es[2], es[3]], [es[4], es[5]], o.id);
    SharesSum([es[0], es[1]], [es[2], es[3]], o.id);
    assert es == [es[0], es[1]] + [es[2], es[3]] + [es[4], es[5]];
    assert [es[0], es[1]][1..] == [es[1]] && [es[2], es[3]][1..] == [es[3]] && [es[4], es[5]][1..] == [es[5]];
    assert [es[1]][1..] == [] && [es[3]][1..] == [] && [es[5]][1..] == [];
  }

  lemma NoFillShares(o: Order, id: nat)
    ensures FilledShares([Freed(o.id)], id) == 0
    ensures FilledShares(RestEvents(o), id) == 0 && FilledShares(RejectEvents(o), id) == 0
  {
    NoFill(Freed(o.id), id);
    var rest, reject := RestEvents(o), RejectEvents(o);
    NoFill(rest[0], id);
    NoFill(rest[1], id);
    NoFill(reject[0], id);
    SharesSum([rest[0]], [rest[1]], id);
    SharesSum([reject[0]], [reject[1]], id);
    assert rest == [rest[0]] + [rest[1]] && reject == [reject[0]] + [reject[1]];
  }

  lemma NoFill(e: Event, id: nat)
    requires e.DropCopy? ==> !e.state.PartialFill? && !e.state.Filled?
    ensures FilledShares([e], id) == 0
  {
    assert [e][1..] == [];
  }

  /** What becomes of the incoming order: what its fills leave of it rests behind all others if nothing crosses it any
      more, and is rejected exactly when the best order it still crosses is its own client's. */
  ghost predicate Settled(o: Order, m: Outcome) {
    var left := o.qty - FilledShares(m.events, o.id);
    && left >= 0
    && (left == 0 ==> o.id !in ById(m.book))
    && (left > 0 && NothingCrosses(m.book, o) ==> m.book != [] && m.book[|m.book| - 1] == o.(qty := left))
    && (left > 0 && !NothingCrosses(m.book, o) ==> o.id !in ById(m.book) && OwnBest(m.book, o))
  }

  ghost predicate OwnBest(b: Book, o: Order) {
    exists i :: IsBest(b, o.side.Other(), i) && Crosses(o, b[i].price) && b[i].client == o.client
  }

  lemma {:induction false} MatchSettles(b: Book, o: Order)
    requires WellFormed(b) && forall k :: 0 <= k < |b| ==> b[k].id != o.id
    ensures Settled(o, Match(b, o))
    decreases |b|
  {
    hide Match, Best, ById, FillEvents, RestEvents, RejectEvents, Without, FilledShares;
    MatchUnfolds(b, o);
    NoFillShares(o, o.id);
    NotById(b, o.id);
    var i := Best(b, o.side.Other());
    if o.qty > 0 {
      if i == -1 || !Crosses(o, b[i].price) {
        BestDecides(b, o);
        assert NothingCrosses(b + [o], o);
      } else if b[i].client == o.client {
        BestIsBest(b, o.side.Other());
        assert OwnBest(b, o);
      } else if o.qty < b[i].qty {
        FillShares(o, b[i], o.id);
        ByIdUpdated(b, i, b[i].(qty := b[i].qty - o.qty));
      } else {
        var o' := o.(qty := o.qty - b[i].qty);
        FillShares(o, b[i], b[i].id);
        WithoutIsWellFormed(b, i);
        WithoutAt(b, i);
        MatchSettles(Without(b, i), o');
        SharesSum(FillEvents(o, b[i]) + [Freed(b[i].id)], Match(Without(b, i), o').events, o.id);
        SettledBefore(o, b[i].qty, Match(Without(b, i), o'), Match(b, o));
      }
    }
  }

  /** The quantity of an order does not decide what it crosses. */
  lemma SettledBefore(o: Order, q: nat, rest: Outcome, m: Outcome)
    requires q <= o.qty && Settled(o.(qty := o.qty - q), rest) && m.book == rest.book
    requires FilledShares(m.events, o.id) == q + FilledShares(rest.events, o.id)
    ensures Settled(o, m)
  {
    hide ById, FilledShares;
    var o' := o.(qty := o.qty - q);
    assert NothingCrosses(m.book, o) <==> NothingCrosses(m.book, o');
    assert OwnBest(m.book, o) <==> OwnBest(m.book, o');
  }
}
