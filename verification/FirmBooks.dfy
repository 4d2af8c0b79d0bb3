/** The trading firm's two depth books (hft-trading-firm/src/data/book_builder.h): arrays with a cached best for
    busy instruments, sorted maps for quiet ones, and exactly when they show the same. */
module FirmBooks {
  import opened MachineInts
  import opened FirmSides

  datatype Snapshot = Snapshot(bestBid: U32, bestAsk: U32, bidQty: U32, askQty: U32)

  // ---- the books as functions of the ticks seen ----

  function Start(bid: bool): (s: Side)
    ensures Coupled(s, bid)
  {
    Side(Hot(seq(MAX_PRICE_LEVELS, i => 0), Worst(bid)), map[])
  }

  /** One side of both books after a tick history. */
  function Seen(ticks: seq<Tick>, bid: bool): (s: Side)
    ensures s.hot.Ok(bid)
  {
    RunSide(Start(bid), bid, ticks)
  }

  ghost function HotTop(ticks: seq<Tick>): Snapshot {
    var b, a := HotShown(Seen(ticks, true).hot, true), HotShown(Seen(ticks, false).hot, false);
    Snapshot(b.price, a.price, b.quantity, a.quantity)
  }

  ghost function ColdTop(ticks: seq<Tick>): Snapshot {
    var b, a := ColdShown(Seen(ticks, true).cold, true), ColdShown(Seen(ticks, false).cold, false);
    Snapshot(b.price, a.price, b.quantity, a.quantity)
  }

  lemma SeenSnoc(ticks: seq<Tick>, t: Tick, bid: bool)
    ensures Seen(ticks + [t], bid) == Tock(Seen(ticks, bid), bid, t)
  {
    hide RunSide, Tock;
    RunSplit(Start(bid), bid, ticks, [t]);
    RunOne(Seen(ticks, bid), bid, t);
  }

  // ---- the ticks after which they show the same ----

  /** Tick i of the stream is good on both sides (it concerns only one). */
  ghost predicate GoodAt(ticks: seq<Tick>, i: nat)
    requires i < |ticks|
  {
    forall bid :: Good(Seen(ticks[..i], bid), bid, ticks[i])
  }

  ghost predicate AllGood(ticks: seq<Tick>) {
    forall i :: 0 <= i < |ticks| ==> GoodAt(ticks, i)
  }

  /** More ticks, all plain: on the array, every add leaving its level non-empty. */
  ghost predicate Plain(ticks: seq<Tick>, more: seq<Tick>) {
    forall bid :: CleanRun(Seen(ticks, bid).hot, bid, more)
  }

  /** The two books show the same after the ticks and any plain ticks that may follow. */
  ghost predicate StaysTogether(ticks: seq<Tick>) {
    forall more :: Plain(ticks, more) ==> HotTop(ticks + more) == ColdTop(ticks + more)
  }

  lemma FrontIsGood(ticks: seq<Tick>, n: nat)
    requires AllGood(ticks) && n <= |ticks|
    ensures AllGood(ticks[..n])
  {
    hide Good, Seen;
    forall i | 0 <= i < n ensures GoodAt(ticks[..n], i) {
      assert ticks[..n][..i] == ticks[..i] && GoodAt(ticks, i);
    }
  }

  lemma {:induction false} GoodIsCoupled(ticks: seq<Tick>, bid: bool)
    requires AllGood(ticks)
    ensures Coupled(Seen(ticks, bid), bid)
  {
    hide Good, Coupled, RunSide;
    if ticks == [] {
      assert RunSide(Start(bid), bid, []) == Start(bid) by { RunNone(Start(bid), bid); }
    } else {
      var n := |ticks| - 1;
      FrontIsGood(ticks, n);
      GoodIsCoupled(ticks[..n], bid);
      assert GoodAt(ticks, n);
      assert ticks == ticks[..n] + [ticks[n]];
      SeenSnoc(ticks[..n], ticks[n], bid);
      GoodKeepsCoupled(Seen(ticks[..n], bid), bid, ticks[n]);
    }
  }

  lemma RunNone(s: Side, bid: bool)
    requires s.hot.Ok(bid)
    ensures RunSide(s, bid, []) == s
  {}

  lemma GoodStaysTogether(ticks: seq<Tick>)
    requires AllGood(ticks)
    ensures StaysTogether(ticks)
  {
    hide Good, Coupled, CleanRun, RunSide, HotShown, ColdShown;
    forall more | Plain(ticks, more) ensures HotTop(ticks + more) == ColdTop(ticks + more) {
      forall bid ensures Agree(Seen(ticks + more, bid), bid) {
        GoodIsCoupled(ticks, bid);
        RunSplit(Start(bid), bid, ticks, more);
        CleanKeepsCoupled(Seen(ticks, bid), bid, more);
        CoupledAgree(Seen(ticks + more, bid), bid);
      }
      assert Agree(Seen(ticks + more, true), true) && Agree(Seen(ticks + more, false), false);
    }
  }

  /** Ticks of the other side do nothing here. */
  lemma {:induction false} OtherSide(s: Side, bid: bool, more: seq<Tick>)
    requires s.hot.Ok(bid) && OneSided(more, !bid)
    ensures CleanRun(s.hot, bid, more) && RunSide(s, bid, more) == s
    decreases |more|
  {
    if more != [] { OtherSide(s, bid, more[1..]); }
  }

  lemma ExposedApart(ticks: seq<Tick>, bid: bool, more: seq<Tick>)
    requires Exposes(Seen(ticks, bid), bid, more)
    ensures Plain(ticks, more) && HotTop(ticks + more) != ColdTop(ticks + more)
  {
    hide CleanRun, RunSide, HotShown, ColdShown;
    OtherSide(Seen(ticks, !bid), !bid, more);
    RunSplit(Start(bid), bid, ticks, more);
    assert !Agree(Seen(ticks + more, bid), bid);
  }

  /** Exactly the streams of good ticks keep the two books together: at every point of the stream, and whatever
      plain ticks come next, they show the same. */
  lemma {:induction false} AgreesIff(ticks: seq<Tick>)
    ensures AllGood(ticks) <==> forall n :: 0 <= n <= |ticks| ==> StaysTogether(ticks[..n])
  {
    hide Good, Plain, HotTop, ColdTop, StaysTogether, Exposes, Seen;
    if AllGood(ticks) {
      forall n | 0 <= n <= |ticks| ensures StaysTogether(ticks[..n]) {
        FrontIsGood(ticks, n);
        GoodStaysTogether(ticks[..n]);
      }
    } else if ticks != [] {
      var n := |ticks| - 1;
      var front := ticks[..n];
      AgreesIff(front);
      if AllGood(front) {
        LastTickParts(ticks);
        assert ticks[..|ticks|] == ticks;
      } else {
        var m :| 0 <= m <= n && !StaysTogether(front[..m]);
        assert front[..m] == ticks[..m];
      }
    }
  }

  lemma LastTickParts(ticks: seq<Tick>)
    requires ticks != [] && AllGood(ticks[..|ticks| - 1]) && !AllGood(ticks)
    ensures !StaysTogether(ticks)
  {
    hide Good, Plain, HotTop, ColdTop, Coupled, Exposes, Seen;
    var n := |ticks| - 1;
    var front := ticks[..n];
    forall i | 0 <= i < n ensures GoodAt(ticks, i) { assert front[..i] == ticks[..i] && GoodAt(front, i); }
    assert !GoodAt(ticks, n);
    var bid :| !Good(Seen(front, bid), bid, ticks[n]);
    GoodIsCoupled(front, bid);
    BadTickShows(Seen(front, bid), bid, ticks[n]);
    assert ticks == front + [ticks[n]];
    SeenSnoc(front, ticks[n], bid);
    var more :| Exposes(Seen(ticks, bid), bid, more);
    ExposedApart(ticks, bid, more);
  }

  // ---- what plain streams show ----

  /** Quantity at one price of one side after a tick history. */
  ghost function Level(ticks: seq<Tick>, bid: bool, price: U32): U32 {
    if ticks == [] then 0
    else
      var t := ticks[|ticks| - 1];
      var before := Level(ticks[..|ticks| - 1], bid, price);
      if t.isBid == bid && t.price == price then After(before, t) else before
  }

  lemma {:induction false} LevelsAreHistory(ticks: seq<Tick>, bid: bool, price: U32)
    requires price < MAX_PRICE_LEVELS
    ensures Seen(ticks, bid).hot.levels[price] == Level(ticks, bid, price)
  {
    hide RunSide, Rescan;
    if ticks == [] {
      RunNone(Start(bid), bid);
    } else {
      var n := |ticks| - 1;
      LevelsAreHistory(ticks[..n], bid, price);
      assert ticks == ticks[..n] + [ticks[n]];
      SeenSnoc(ticks[..n], ticks[n], bid);
    }
  }

  /** The best non-empty level of each side, with the code's values for an empty side. */
  ghost predicate IsTop(ticks: seq<Tick>, s: Snapshot) {
    && s.bestBid < MAX_PRICE_LEVELS && s.bestAsk < MAX_PRICE_LEVELS
    && (forall p: U32 :: s.bestBid < p < MAX_PRICE_LEVELS ==> Level(ticks, true, p) == 0)
    && (forall p: U32 :: p < s.bestAsk ==> Level(ticks, false, p) == 0)
    && (s.bidQty > 0 || s.bestBid == 0) && (s.askQty > 0 || s.bestAsk == MAX_PRICE_LEVELS - 1)
    && s.bidQty == Level(ticks, true, s.bestBid) && s.askQty == Level(ticks, false, s.bestAsk)
  }

  ghost predicate Exact(h: Hot, bid: bool) {
    h.Ok(bid) && (h.levels[h.best] > 0 || h.best == Worst(bid))
  }

  lemma {:induction false} PlainIsExact(s: Side, bid: bool, ticks: seq<Tick>)
    requires Exact(s.hot, bid) && CleanRun(s.hot, bid, ticks)
    ensures Exact(RunSide(s, bid, ticks).hot, bid)
    decreases |ticks|
  {
    if ticks != [] { PlainIsExact(Tock(s, bid, ticks[0]), bid, ticks[1..]); }
  }

  /** After plain ticks only, both books show the two best levels of the history. */
  lemma PlainShowsTop(ticks: seq<Tick>)
    requires Plain([], ticks)
    ensures IsTop(ticks, HotTop(ticks)) && ColdTop(ticks) == HotTop(ticks)
  {
    hide CleanRun, RunSide, ColdShown, Level, Coupled;
    forall bid ensures Exact(Seen(ticks, bid).hot, bid) && Agree(Seen(ticks, bid), bid) {
      RunNone(Start(bid), bid);
      assert CleanRun(Seen([], bid).hot, bid, ticks);
      PlainIsExact(Start(bid), bid, ticks);
      CleanKeepsCoupled(Start(bid), bid, ticks);
      CoupledAgree(Seen(ticks, bid), bid);
    }
    assert Agree(Seen(ticks, true), true) && Agree(Seen(ticks, false), false);
    assert Exact(Seen(ticks, true).hot, true) && Exact(Seen(ticks, false).hot, false);
    forall bid, p: U32 | p < MAX_PRICE_LEVELS ensures Seen(ticks, bid).hot.levels[p] == Level(ticks, bid, p) {
      LevelsAreHistory(ticks, bid, p);
    }
  }

  // ---- levels as sums of what was ticked ----

  /** Total of the adds, and of the trades, of one side at one price. */
  ghost function Added(ticks: seq<Tick>, bid: bool, price: U32): nat {
    if ticks == [] then 0 else
      var t := ticks[|ticks| - 1];
      var before := Added(ticks[..|ticks| - 1], bid, price);
      if t.isBid == bid && t.price == price && !t.isTrade then before + t.quantity else before
  }

  ghost function Traded(ticks: seq<Tick>, bid: bool, price: U32): nat {
    if ticks == [] then 0 else
      var t := ticks[|ticks| - 1];
      var before := Traded(ticks[..|ticks| - 1], bid, price);
      if t.isBid == bid && t.price == price && t.isTrade then before + t.quantity else before
  }

  ghost function Net(ticks: seq<Tick>, bid: bool, price: U32): int {
    Added(ticks, bid, price) - Traded(ticks, bid, price)
  }

  /** The lowest the net total has ever been: how much was traded that was not there. */
  ghost function Lowest(ticks: seq<Tick>, bid: bool, price: U32): int {
    if ticks == [] then 0 else
      var before := Lowest(ticks[..|ticks| - 1], bid, price);
      if Net(ticks, bid, price) < before then Net(ticks, bid, price) else before
  }

  /** What was added and not traded since: a trade of more than there is starts over from nothing. */
  ghost function Left(ticks: seq<Tick>, bid: bool, price: U32): int {
    Net(ticks, bid, price) - Lowest(ticks, bid, price)
  }

  ghost predicate NeverOverflows(ticks: seq<Tick>, bid: bool, price: U32) {
    forall n :: 0 <= n <= |ticks| ==> Left(ticks[..n], bid, price) < WRAP32
  }

  /** As long as no level outgrows 32 bits, it is exactly what was added and not traded since. */
  lemma {:induction false} LevelIsLeft(ticks: seq<Tick>, bid: bool, price: U32)
    requires NeverOverflows(ticks, bid, price)
    ensures Level(ticks, bid, price) == Left(ticks, bid, price)
  {
    if ticks != [] {
      var n := |ticks| - 1;
      var front := ticks[..n];
      forall m | 0 <= m <= n ensures Left(front[..m], bid, price) < WRAP32 { assert front[..m] == ticks[..m]; }
      LevelIsLeft(front, bid, price);
      assert ticks[..|ticks|] == ticks;
      assert Left(ticks, bid, price) < WRAP32;
    }
  }

  /** If never more was traded than added, it is the plain difference. */
  lemma {:induction false} LevelIsNet(ticks: seq<Tick>, bid: bool, price: U32)
    requires forall n :: 0 <= n <= |ticks| ==>
      Traded(ticks[..n], bid, price) <= Added(ticks[..n], bid, price) < WRAP32
    ensures Level(ticks, bid, price) == Added(ticks, bid, price) - Traded(ticks, bid, price)
  {
    forall n | 0 <= n <= |ticks| ensures Lowest(ticks[..n], bid, price) == 0 { LowestIsZero(ticks, n, bid, price); }
    assert ticks[..|ticks|] == ticks;
    LevelIsLeft(ticks, bid, price);
  }

  lemma {:induction false} LowestIsZero(ticks: seq<Tick>, n: nat, bid: bool, price: U32)
    requires n <= |ticks|
    requires forall m :: 0 <= m <= |ticks| ==> Traded(ticks[..m], bid, price) <= Added(ticks[..m], bid, price)
    ensures Lowest(ticks[..n], bid, price) == 0
  {
    if n > 0 {
      LowestIsZero(ticks, n - 1, bid, price);
      assert ticks[..n][..n - 1] == ticks[..n - 1];
    }
  }

  lemma WrapsOnce(a: nat, q: U32)
    ensures (a % WRAP32 + q) % WRAP32 == (a + q) % WRAP32
  {}

  /** If nothing was traded, it is the total modulo 2^32. */
  lemma {:induction false} AddsWrap(ticks: seq<Tick>, bid: bool, price: U32)
    requires Traded(ticks, bid, price) == 0
    ensures Level(ticks, bid, price) == Added(ticks, bid, price) % WRAP32
  {
    if ticks != [] {
      var front, t := ticks[..|ticks| - 1], ticks[|ticks| - 1];
      assert Traded(front, bid, price) == 0;
      AddsWrap(front, bid, price);
      WrapsOnce(Added(front, bid, price), t.quantity);
      if t.isBid == bid && t.price == price && t.isTrade {
        assert t.quantity == 0;
      }
    }
  }

  /** A trade of at least what is there leaves nothing, whatever went before. */
  lemma OverTradeEmpties(ticks: seq<Tick>, t: Tick)
    requires t.isTrade && t.price < MAX_PRICE_LEVELS && t.quantity >= Level(ticks, t.isBid, t.price)
    ensures Level(ticks + [t], t.isBid, t.price) == 0
  {
    assert (ticks + [t])[..|ticks|] == ticks;
  }

  /** After plain ticks that outgrow no level, both books show, on each side, the best price at which something is left,
      and what is left there. */
  lemma PlainShowsSums(ticks: seq<Tick>)
    requires Plain([], ticks) && forall bid, p: U32 :: p < MAX_PRICE_LEVELS ==> NeverOverflows(ticks, bid, p)
    ensures var s := HotTop(ticks);
      && ColdTop(ticks) == s
      && s.bidQty == Left(ticks, true, s.bestBid) && s.askQty == Left(ticks, false, s.bestAsk)
      && (s.bidQty > 0 || s.bestBid == 0) && (s.askQty > 0 || s.bestAsk == MAX_PRICE_LEVELS - 1)
      && (forall p: U32 :: s.bestBid < p < MAX_PRICE_LEVELS ==> Left(ticks, true, p) == 0)
      && (forall p: U32 :: p < s.bestAsk ==> Left(ticks, false, p) == 0)
  {
    hide Plain, HotTop, ColdTop, Level, Left, NeverOverflows;
    PlainShowsTop(ticks);
    forall bid, p: U32 | p < MAX_PRICE_LEVELS ensures Level(ticks, bid, p) == Left(ticks, bid, p) {
      LevelIsLeft(ticks, bid, p);
    }
  }

  // ---- the array book ----

  class HotBook {
    const bids: array<U32>
    const asks: array<U32>
    var bestBid: U32
    var bestAsk: U32
    ghost var seen: seq<Tick>

    /** Arrays and cached bests are what the ticks seen, any ticks, make of them. */
    ghost predicate Valid()
      reads this, bids, asks
    {
      bids != asks && Hot(bids[..], bestBid) == Seen(seen, true).hot && Hot(asks[..], bestAsk) == Seen(seen, false).hot
    }

    constructor ()
      ensures Valid() && fresh(bids) && fresh(asks) && seen == []
    {
      bids := new U32[MAX_PRICE_LEVELS](i => 0);
      asks := new U32[MAX_PRICE_LEVELS](i => 0);
      bestBid, bestAsk, seen := 0, MAX_PRICE_LEVELS - 1, [];
      new;
      assert bids[..] == seq(MAX_PRICE_LEVELS, i => 0) && asks[..] == seq(MAX_PRICE_LEVELS, i => 0);
      RunNone(Start(true), true);
      RunNone(Start(false), false);
    }

    method ProcessTick(t: Tick)
      requires Valid()
      modifies this`bestBid, this`bestAsk, this`seen, bids, asks
      ensures Valid() && seen == old(seen) + [t]
    {
      hide RunSide;
      SeenSnoc(seen, t, true);
      SeenSnoc(seen, t, false);
      seen := seen + [t];
      if t.price >= MAX_PRICE_LEVELS { return; }
      if t.isBid { ProcessBid(t); } else { ProcessAsk(t); }
    }

    method ProcessBid(t: Tick)
      requires Hot(bids[..], bestBid).Ok(true) && t.isBid && t.price < MAX_PRICE_LEVELS
      modifies this`bestBid, bids
      ensures Hot(bids[..], bestBid) == HotTick(Hot(old(bids[..]), old(bestBid)), true, t)
    {
      hide Rescan;
      if !t.isTrade {
        bids[t.price] := (bids[t.price] + t.quantity) % WRAP32;
        if t.price > bestBid { bestBid := t.price; }
      } else {
        if bids[t.price] >= t.quantity {
          bids[t.price] := bids[t.price] - t.quantity;
        } else {
          bids[t.price] := 0;
        }
        if bids[t.price] == 0 && t.price == bestBid {
          bestBid := NextBidDown(bestBid);
        }
      }
    }

    /** The rescan after the best bid level empties. */
    method NextBidDown(start: U32) returns (p: U32)
      requires start < bids.Length == MAX_PRICE_LEVELS
      ensures p == Rescan(bids[..], true, start)
      ensures p <= start && (p == 0 || bids[p] > 0) && forall q: U32 :: p < q <= start ==> bids[q] == 0
    {
      p := start;
      while p > 0 && bids[p] == 0
        invariant p <= start && Rescan(bids[..], true, p) == Rescan(bids[..], true, start)
        invariant forall q: U32 :: p < q <= start ==> bids[q] == 0
      {
        p := p - 1;
      }
    }

    method ProcessAsk(t: Tick)
      requires Hot(asks[..], bestAsk).Ok(false) && !t.isBid && t.price < MAX_PRICE_LEVELS
      modifies this`bestAsk, asks
      ensures Hot(asks[..], bestAsk) == HotTick(Hot(old(asks[..]), old(bestAsk)), false, t)
    {
      hide Rescan;
      if !t.isTrade {
        asks[t.price] := (asks[t.price] + t.quantity) % WRAP32;
        if t.price < bestAsk { bestAsk := t.price; }
      } else {
        if asks[t.price] >= t.quantity {
          asks[t.price] := asks[t.price] - t.quantity;
        } else {
          asks[t.price] := 0;
        }
        if asks[t.price] == 0 && t.price == bestAsk {
          bestAsk := NextAskUp(bestAsk);
        }
      }
    }

    /** The rescan after the best ask level empties. */
    method NextAskUp(start: U32) returns (p: U32)
      requires start < MAX_PRICE_LEVELS == asks.Length
      ensures p == Rescan(asks[..], false, start)
      ensures start <= p < MAX_PRICE_LEVELS && (p == MAX_PRICE_LEVELS - 1 || asks[p] > 0)
      ensures forall q: U32 :: start <= q < p ==> asks[q] == 0
    {
      p := start;
      while p < MAX_PRICE_LEVELS - 1 && asks[p] == 0
        invariant start <= p < MAX_PRICE_LEVELS && Rescan(asks[..], false, p) == Rescan(asks[..], false, start)
        invariant forall q: U32 :: start <= q < p ==> asks[q] == 0
      {
        p := p + 1;
      }
    }

    method GetSnapshot() returns (s: Snapshot)
      requires Valid()
      ensures s == HotTop(seen)
    {
      s := Snapshot(bestBid, bestAsk, bids[bestBid], asks[bestAsk]);
    }
  }

  // ---- the map book ----

  class ColdBook {
    var bids: Cold
    var asks: Cold
    ghost var seen: seq<Tick>

    ghost predicate Valid()
      reads this
    {
      bids == Seen(seen, true).cold && asks == Seen(seen, false).cold
    }

    constructor ()
      ensures Valid() && seen == []
    {
      bids, asks, seen := map[], map[], [];
      RunNone(Start(true), true);
      RunNone(Start(false), false);
    }

    /** The map's key has 32 bits, so a longer price is cut to them. */
    method ProcessTick(t: Tick)
      requires Valid()
      modifies this
      ensures Valid() && seen == old(seen) + [t]
    {
      hide RunSide;
      SeenSnoc(seen, t, true);
      SeenSnoc(seen, t, false);
      seen := seen + [t];
      var key: U32 := t.price % WRAP32;
      if t.isBid {
        if !t.isTrade {
          bids := bids[key := ((if key in bids then bids[key] else 0) + t.quantity) % WRAP32];
        } else if key in bids {
          if bids[key] > t.quantity {
            bids := bids[key := bids[key] - t.quantity];
          } else {
            bids := bids - {key};
          }
        }
      } else {
        if !t.isTrade {
          asks := asks[key := ((if key in asks then asks[key] else 0) + t.quantity) % WRAP32];
        } else if key in asks {
          if asks[key] > t.quantity {
            asks := asks[key := asks[key] - t.quantity];
          } else {
            asks := asks - {key};
          }
        }
      }
    }

    method GetSnapshot() returns (s: Snapshot)
      requires Valid()
      ensures s == ColdTop(seen)
    {
      hide RunSide;
      s := Snapshot(0, MAX_PRICE_LEVELS - 1, 0, 0);
      if bids != map[] {
        FirstExists(bids, true);
        var bb: U32 :| bb in bids && forall p <- bids :: p <= bb;
        assert IsFirst(bids, true, bb);
        s := s.(bestBid := bb, bidQty := bids[bb]);
      }
      if asks != map[] {
        FirstExists(asks, false);
        var ba: U32 :| ba in asks && forall p <- asks :: ba <= p;
        assert IsFirst(asks, false, ba);
        s := s.(bestAsk := ba, askQty := asks[ba]);
      }
    }
  }

  /** Both books fed the same ticks: their snapshots after every tick, the same after every good prefix. */
  method Replay(ticks: seq<Tick>) returns (hot: seq<Snapshot>, cold: seq<Snapshot>)
    ensures |hot| == |cold| == |ticks|
    ensures forall i :: 0 <= i < |ticks| ==> hot[i] == HotTop(ticks[..i + 1]) && cold[i] == ColdTop(ticks[..i + 1])
    ensures forall i :: 0 <= i < |ticks| && AllGood(ticks[..i + 1]) ==> hot[i] == cold[i]
  {
    hide HotTop, ColdTop, HotBook.Valid, ColdBook.Valid, AllGood;
    var h := new HotBook();
    var c := new ColdBook();
    hot, cold := [], [];
    for k := 0 to |ticks|
      invariant h.Valid() && c.Valid() && h.seen == c.seen == ticks[..k] && |hot| == |cold| == k
      invariant fresh(h) && fresh(h.bids) && fresh(h.asks) && fresh(c)
      invariant forall i :: 0 <= i < k ==> hot[i] == HotTop(ticks[..i + 1]) && cold[i] == ColdTop(ticks[..i + 1])
    {
      assert ticks[..k + 1] == ticks[..k] + [ticks[k]];
      h.ProcessTick(ticks[k]);
      c.ProcessTick(ticks[k]);
      var a := h.GetSnapshot();
      var b := c.GetSnapshot();
      hot, cold := hot + [a], cold + [b];
    }
    forall i | 0 <= i < |ticks| && AllGood(ticks[..i + 1]) ensures hot[i] == cold[i] { GoodAgrees(ticks[..i + 1]); }
  }

  lemma GoodAgrees(ticks: seq<Tick>)
    requires AllGood(ticks)
    ensures HotTop(ticks) == ColdTop(ticks)
  {
    hide AllGood, Coupled, HotShown, ColdShown, Seen;
    GoodIsCoupled(ticks, true);
    GoodIsCoupled(ticks, false);
    CoupledAgree(Seen(ticks, true), true);
    CoupledAgree(Seen(ticks, false), false);
  }

  // ---- three short streams that part them ----

  /** Two empty bid adds and a trade at the higher one: the map shows the lower entry, the array's rescan skips it. */
  lemma EmptyAddsPart(low: U32, high: U32, traded: U32)
    requires low < high < MAX_PRICE_LEVELS
    ensures var ticks := [Tick(low, 0, true, false), Tick(high, 0, true, false), Tick(high, traded, true, true)];
      HotTop(ticks).bestBid == 0 && ColdTop(ticks).bestBid == low
  {
    var a, b, t := Tick(low, 0, true, false), Tick(high, 0, true, false), Tick(high, traded, true, true);
    hide RunSide, Tock;
    RunNone(Start(true), true);
    SeenSnoc([], a, true);
    SeenSnoc([a], b, true);
    SeenSnoc([a, b], t, true);
    assert [] + [a] == [a] && [a] + [b] == [a, b] && [a, b] + [t] == [a, b, t];
    EmptyAdds(low, high, a, b, t);
    var c := Seen([a, b, t], true).cold;
    assert c.Keys == {low} && IsFirst(c, true, First(c, true));
  }

  lemma EmptyAdds(low: U32, high: U32, a: Tick, b: Tick, t: Tick)
    requires low < high < MAX_PRICE_LEVELS && a == Tick(low, 0, true, false) && b == Tick(high, 0, true, false)
    requires t.isBid && t.isTrade && t.price == high
    ensures var s := Tock(Tock(Tock(Start(true), true, a), true, b), true, t);
      s.hot.best == 0 && s.cold == map[low := 0]
  {
    hide Rescan;
    var s1 := Tock(Start(true), true, a);
    assert s1.hot.levels == Start(true).hot.levels && s1.hot.best == low && s1.cold == map[low := 0];
    var s2 := Tock(s1, true, b);
    assert s2.hot.levels == Start(true).hot.levels && s2.hot.best == high && s2.cold == map[low := 0, high := 0];
    var s3 := Tock(s2, true, t);
    assert s3.hot.levels == Start(true).hot.levels;
    assert s3.cold == s2.cold - {high};
  }

  /** A first bid add at a 32-bit price beyond the array: the array book ignores it, the map book shows it. */
  lemma HighBidParts(price: U64, quantity: U32)
    requires price % WRAP32 >= MAX_PRICE_LEVELS
    ensures var ticks := [Tick(price, quantity, true, false)];
      HotTop(ticks).bestBid == 0 && ColdTop(ticks).bestBid == price % WRAP32
  {
    FirstBid(Tick(price, quantity, true, false));
  }

  /** A first bid add at a price of more than 32 bits: the map book shows it at the price cut to 32. */
  lemma LongBidParts(price: U64, quantity: U32)
    requires price >= WRAP32 && quantity > 0
    ensures var ticks := [Tick(price, quantity, true, false)];
      HotTop(ticks).bidQty == 0 && ColdTop(ticks).bidQty == quantity && ColdTop(ticks).bestBid == price % WRAP32
  {
    FirstBid(Tick(price, quantity, true, false));
  }

  lemma FirstBid(t: Tick)
    requires t.isBid && !t.isTrade && t.price >= MAX_PRICE_LEVELS
    ensures HotTop([t]).bestBid == 0 && HotTop([t]).bidQty == 0
    ensures ColdTop([t]).bestBid == Key(t) && ColdTop([t]).bidQty == t.quantity
  {
    hide RunSide;
    RunNone(Start(true), true);
    SeenSnoc([], t, true);
    assert [] + [t] == [t];
    var c := Seen([t], true).cold;
    assert c == map[Key(t) := t.quantity];
    assert IsFirst(c, true, First(c, true));
  }
}
