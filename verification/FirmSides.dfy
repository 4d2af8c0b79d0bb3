/** One side of the trading firm's two depth books (hft-trading-firm/src/data/book_builder.h) as values: an array of
    levels with a cached best price, and a map from 32-bit prices to levels. When do they show the same? */
module FirmSides {
  import opened MachineInts

  const MAX_PRICE_LEVELS: nat := 100001

  /** The price of a tick has 64 bits (NormalizedModels.h:6); the books' own prices have 32. */
  datatype Tick = Tick(price: U64, quantity: U32, isBid: bool, isTrade: bool)

  /** What one tick does to the quantity of its own level: adds wrap at 32 bits, over-large trades empty it. */
  function After(level: U32, t: Tick): U32 {
    if !t.isTrade then (level + t.quantity) % WRAP32
    else if level >= t.quantity then level - t.quantity
    else 0
  }

  // ---- prices of a side, from best to worst ----

  /** Price p is better than q: higher for bids, lower for asks. */
  predicate Better(bid: bool, p: int, q: int) {
    if bid then p > q else p < q
  }

  function Worst(bid: bool): U32 { if bid then 0 else MAX_PRICE_LEVELS - 1 }

  function Top(bid: bool): U32 { if bid then MAX_PRICE_LEVELS - 1 else 0 }

  function Down(bid: bool, p: U32): U32
    requires p < MAX_PRICE_LEVELS && p != Worst(bid)
  {
    if bid then p - 1 else p + 1
  }

  function Up(bid: bool, p: U32): U32
    requires p < MAX_PRICE_LEVELS && p != Top(bid)
  {
    if bid then p + 1 else p - 1
  }

  function Rank(bid: bool, p: U32): int { if bid then p else MAX_PRICE_LEVELS - 1 - p }

  // ---- the array ----

  datatype Hot = Hot(levels: seq<U32>, best: U32) {
    /** The cached best is a bound: nothing better is non-empty. */
    ghost predicate Ok(bid: bool) {
      && |levels| == MAX_PRICE_LEVELS && best < MAX_PRICE_LEVELS
      && forall p :: 0 <= p < |levels| && Better(bid, p, best) ==> levels[p] == 0
    }
  }

  /** The rescan after the best level empties: down to the next non-empty level, or the worst price. */
  function Rescan(levels: seq<U32>, bid: bool, p: U32): (r: U32)
    requires |levels| == MAX_PRICE_LEVELS && p < MAX_PRICE_LEVELS
    ensures r < MAX_PRICE_LEVELS && !Better(bid, r, p) && (levels[r] > 0 || r == Worst(bid))
    ensures forall q :: 0 <= q < |levels| && Better(bid, q, r) && !Better(bid, q, p) ==> levels[q] == 0
    decreases Rank(bid, p)
  {
    if p == Worst(bid) || levels[p] != 0 then p else Rescan(levels, bid, Down(bid, p))
  }

  function HotTick(h: Hot, bid: bool, t: Tick): (r: Hot)
    requires h.Ok(bid)
    ensures r.Ok(bid)
  {
    if t.isBid != bid || t.price >= MAX_PRICE_LEVELS then h else
      var v := After(h.levels[t.price], t);
      var levels := h.levels[t.price := v];
      if !t.isTrade then Hot(levels, if Better(bid, t.price, h.best) then t.price else h.best)
      else if v == 0 && t.price == h.best then Hot(levels, Rescan(levels, bid, h.best))
      else Hot(levels, h.best)
  }

  // ---- the map ----

  type Cold = map<U32, U32>

  function Key(t: Tick): U32 { t.price % WRAP32 }

  function LevelAt(c: Cold, k: U32): U32 { if k in c then c[k] else 0 }

  /** An add creates its entry even when the level stays empty; a trade keeps its entry only if it is not. */
  function ColdTick(c: Cold, bid: bool, t: Tick): Cold {
    if t.isBid != bid then c else
      var k := Key(t);
      var v := After(LevelAt(c, k), t);
      if !t.isTrade || (k in c && v > 0) then c[k := v] else c - {k}
  }

  /** The first entry in the map's order. */
  ghost predicate IsFirst(c: Cold, bid: bool, k: U32) {
    k in c && forall j <- c :: !Better(bid, j, k)
  }

  lemma {:induction false} FirstExists(c: Cold, bid: bool)
    requires c != map[]
    ensures exists k: U32 :: IsFirst(c, bid, k)
    decreases |c|
  {
    var x: U32 :| x in c;
    var rest := c - {x};
    if rest == map[] {
      assert forall j <- c :: j == x || j in rest;
      assert IsFirst(c, bid, x);
    } else {
      FirstExists(rest, bid);
      var y: U32 :| IsFirst(rest, bid, y);
      var k: U32 := if Better(bid, x, y) then x else y;
      assert forall j <- c :: j == x || j in rest;
      assert IsFirst(c, bid, k);
    }
  }

  ghost function First(c: Cold, bid: bool): (k: U32)
    requires c != map[]
    ensures IsFirst(c, bid, k)
  {
    FirstExists(c, bid);
    var k: U32 :| IsFirst(c, bid, k);
    k
  }

  // ---- what the two show ----

  datatype Shown = Shown(price: U32, quantity: U32)

  ghost function HotShown(h: Hot, bid: bool): Shown
    requires h.Ok(bid)
  {
    Shown(h.best, h.levels[h.best])
  }

  ghost function ColdShown(c: Cold, bid: bool): Shown {
    if c == map[] then Shown(Worst(bid), 0) else Shown(First(c, bid), c[First(c, bid)])
  }

  datatype Side = Side(hot: Hot, cold: Cold)

  ghost predicate Agree(s: Side, bid: bool)
    requires s.hot.Ok(bid)
  {
    HotShown(s.hot, bid) == ColdShown(s.cold, bid)
  }

  function Tock(s: Side, bid: bool, t: Tick): (r: Side)
    requires s.hot.Ok(bid)
    ensures r.hot.Ok(bid)
  {
    Side(HotTick(s.hot, bid, t), ColdTick(s.cold, bid, t))
  }

  function RunSide(s: Side, bid: bool, ticks: seq<Tick>): (r: Side)
    requires s.hot.Ok(bid)
    ensures r.hot.Ok(bid)
    decreases |ticks|
  {
    if ticks == [] then s else RunSide(Tock(s, bid, ticks[0]), bid, ticks[1..])
  }

  // ---- ticks that keep them together ----

  /** A tick that the two treat alike, as far as the state before it tells: an on-array trade; an on-array add that
      leaves its level non-empty or is at an end of the array; beyond the array, only what changes no entry, but for
      an empty entry at the worst price, which never shows. */
  predicate Good(s: Side, bid: bool, t: Tick)
    requires |s.hot.levels| == MAX_PRICE_LEVELS
  {
    t.isBid == bid ==>
      var k := Key(t);
      if t.price < MAX_PRICE_LEVELS then
        t.isTrade || After(s.hot.levels[t.price], t) > 0 || t.price == Worst(bid) || t.price == Top(bid)
      else if t.isTrade then
        k !in s.cold || (s.cold[k] > 0 && t.quantity == 0) || (s.cold[k] == 0 && k == Worst(bid))
      else k < MAX_PRICE_LEVELS && t.quantity == 0 && (k in s.cold || k == Worst(bid))
  }

  /** The invariant of good ticks: same levels; empty entries only at the two ends; the best price is exact, unless
      it is an empty entry at the top, which then both show. */
  ghost predicate Coupled(s: Side, bid: bool) {
    && s.hot.Ok(bid)
    && (forall k <- s.cold :: k < MAX_PRICE_LEVELS)
    && (forall p: U32 :: p < MAX_PRICE_LEVELS ==> s.hot.levels[p] == LevelAt(s.cold, p))
    && (forall k <- s.cold :: s.cold[k] == 0 ==> k == Worst(bid) || k == Top(bid))
    && (s.hot.levels[s.hot.best] > 0 || s.hot.best == Worst(bid) || (s.hot.best == Top(bid) && Top(bid) in s.cold))
    && (Top(bid) in s.cold ==> s.hot.best == Top(bid))
  }

  lemma CoupledAgree(s: Side, bid: bool)
    requires Coupled(s, bid)
    ensures Agree(s, bid)
  {
    if s.cold != map[] {
      var k := First(s.cold, bid);
      assert s.hot.levels[k] == s.cold[k];
      if s.hot.best in s.cold { assert !Better(bid, s.hot.best, k); }
    }
  }

  lemma GoodKeepsCoupled(s: Side, bid: bool, t: Tick)
    requires Coupled(s, bid) && Good(s, bid, t)
    ensures Coupled(Tock(s, bid, t), bid)
  {
    if t.isBid == bid {
      if t.price < MAX_PRICE_LEVELS { OnArrayCoupled(s, bid, t); } else { OffArrayCoupled(s, bid, t); }
    }
  }

  lemma OnArrayCoupled(s: Side, bid: bool, t: Tick)
    requires Coupled(s, bid) && Good(s, bid, t) && t.isBid == bid && t.price < MAX_PRICE_LEVELS
    ensures Coupled(Tock(s, bid, t), bid)
  {
    var r, k := Tock(s, bid, t), Key(t);
    assert k == t.price && s.hot.levels[k] == LevelAt(s.cold, k);
    var v := After(s.hot.levels[k], t);
    forall p: U32 | p < MAX_PRICE_LEVELS ensures r.hot.levels[p] == LevelAt(r.cold, p) {
      assert s.hot.levels[p] == LevelAt(s.cold, p);
    }
    if t.isTrade { TradeCoupled(s, bid, t, r); } else { AddCoupled(s, bid, t, r); }
  }

  /** The same levels changed alike; what is left is the cached best and the empty entries. */
  ghost predicate SameLevels(s: Side) {
    && |s.hot.levels| == MAX_PRICE_LEVELS
    && forall p: U32 :: p < MAX_PRICE_LEVELS ==> s.hot.levels[p] == LevelAt(s.cold, p)
  }

  lemma AddCoupled(s: Side, bid: bool, t: Tick, r: Side)
    requires Coupled(s, bid) && Good(s, bid, t) && t.isBid == bid && t.price < MAX_PRICE_LEVELS && !t.isTrade
    requires r == Tock(s, bid, t) && SameLevels(r)
    ensures Coupled(r, bid)
  {
    hide SameLevels;
    assert r.cold == s.cold[Key(t) := r.cold[Key(t)]];
  }

  lemma TradeCoupled(s: Side, bid: bool, t: Tick, r: Side)
    requires Coupled(s, bid) && t.isBid == bid && t.price < MAX_PRICE_LEVELS && t.isTrade
    requires r == Tock(s, bid, t) && SameLevels(r)
    ensures Coupled(r, bid)
  {
    hide SameLevels, Rescan;
    var k := Key(t);
    assert forall j <- r.cold :: j in s.cold && (j == k || r.cold[j] == s.cold[j]);
    assert k in r.cold ==> r.cold[k] > 0;
  }

  lemma OffArrayCoupled(s: Side, bid: bool, t: Tick)
    requires Coupled(s, bid) && Good(s, bid, t) && t.isBid == bid && t.price >= MAX_PRICE_LEVELS
    ensures Coupled(Tock(s, bid, t), bid)
  {
    var r, k := Tock(s, bid, t), Key(t);
    forall p: U32 | p < MAX_PRICE_LEVELS ensures r.hot.levels[p] == LevelAt(r.cold, p) {
      assert s.hot.levels[p] == LevelAt(s.cold, p);
    }
  }

  // ---- and ticks that do not ----

  /** A continuation of plain ticks: on the array, every add leaving its level non-empty. */
  predicate Clean(h: Hot, bid: bool, t: Tick)
    requires |h.levels| == MAX_PRICE_LEVELS
  {
    t.isBid == bid ==> t.price < MAX_PRICE_LEVELS && (t.isTrade || After(h.levels[t.price], t) > 0)
  }

  predicate CleanRun(h: Hot, bid: bool, ticks: seq<Tick>)
    requires h.Ok(bid)
    decreases |ticks|
  {
    ticks == [] || (Clean(h, bid, ticks[0]) && CleanRun(HotTick(h, bid, ticks[0]), bid, ticks[1..]))
  }

  /** A trade of everything. */
  function Wipe(bid: bool, p: U32): Tick { Tick(p, WRAP32 - 1, bid, true) }

  lemma WipeEmpties(level: U32, bid: bool, p: U32)
    ensures After(level, Wipe(bid, p)) == 0
  {}

  /** Wipe every price better than k, best first. */
  function Sweep(bid: bool, k: U32): seq<Tick>
    requires k < MAX_PRICE_LEVELS
    decreases MAX_PRICE_LEVELS - Rank(bid, k)
  {
    if k == Top(bid) then [] else Sweep(bid, Up(bid, k)) + [Wipe(bid, Up(bid, k))]
  }

  lemma {:induction false} RunSplit(s: Side, bid: bool, a: seq<Tick>, b: seq<Tick>)
    requires s.hot.Ok(bid)
    ensures RunSide(s, bid, a + b) == RunSide(RunSide(s, bid, a), bid, b)
    ensures CleanRun(s.hot, bid, a + b) <==> CleanRun(s.hot, bid, a) && CleanRun(RunSide(s, bid, a).hot, bid, b)
    decreases |a|
  {
    if a == [] {
      assert a + b == b;
    } else {
      assert (a + b)[1..] == a[1..] + b;
      RunSplit(Tock(s, bid, a[0]), bid, a[1..], b);
    }
  }

  lemma RunOne(s: Side, bid: bool, t: Tick)
    requires s.hot.Ok(bid)
    ensures RunSide(s, bid, [t]) == Tock(s, bid, t) && (CleanRun(s.hot, bid, [t]) <==> Clean(s.hot, bid, t))
  {
    assert [t][1..] == [];
    assert RunSide(Tock(s, bid, t), bid, []) == Tock(s, bid, t);
  }

  /** What a sweep leaves: nothing better than k on the array, all else as it was, and a best price that is exact
      if it was among those swept. */
  ghost predicate Swept(s: Side, r: Side, bid: bool, k: U32)
    requires s.hot.Ok(bid) && r.hot.Ok(bid) && k < MAX_PRICE_LEVELS
  {
    && (forall p: U32 :: p < MAX_PRICE_LEVELS ==> r.hot.levels[p] == if Better(bid, p, k) then 0 else s.hot.levels[p])
    && (forall j: U32 :: j in r.cold <==> j in s.cold && !(j < MAX_PRICE_LEVELS && Better(bid, j, k)))
    && (forall j <- r.cold :: j in s.cold && r.cold[j] == s.cold[j])
    && !Better(bid, r.hot.best, k)
    && (Better(bid, s.hot.best, k) ==> r.hot.levels[r.hot.best] > 0 || r.hot.best == Worst(bid))
    && (!Better(bid, s.hot.best, k) ==> r.hot.best == s.hot.best)
  }

  lemma {:induction false} SweepSweeps(s: Side, bid: bool, k: U32)
    requires s.hot.Ok(bid) && k < MAX_PRICE_LEVELS
    ensures CleanRun(s.hot, bid, Sweep(bid, k)) && Swept(s, RunSide(s, bid, Sweep(bid, k)), bid, k)
    decreases MAX_PRICE_LEVELS - Rank(bid, k)
  {
    if k != Top(bid) {
      hide RunSide, CleanRun, Swept, Tock;
      var u := Up(bid, k);
      SweepSweeps(s, bid, u);
      var m := RunSide(s, bid, Sweep(bid, u));
      RunSplit(s, bid, Sweep(bid, u), [Wipe(bid, u)]);
      RunOne(m, bid, Wipe(bid, u));
      WipeSweeps(s, m, bid, k);
    } else {
      assert RunSide(s, bid, []) == s;
    }
  }

  lemma WipeSweeps(s: Side, m: Side, bid: bool, k: U32)
    requires s.hot.Ok(bid) && m.hot.Ok(bid) && k < MAX_PRICE_LEVELS && k != Top(bid) && Swept(s, m, bid, Up(bid, k))
    ensures Swept(s, Tock(m, bid, Wipe(bid, Up(bid, k))), bid, k)
  {
    var u := Up(bid, k);
    var r := Tock(m, bid, Wipe(bid, u));
    WipeEmpties(m.hot.levels[u], bid, u);
    WipeEmpties(LevelAt(m.cold, u), bid, u);
    assert r.hot.levels == m.hot.levels[u := 0] && r.cold == m.cold - {u};
    hide Rescan, After, ColdTick;
    assert forall p: U32 :: p < MAX_PRICE_LEVELS ==> (Better(bid, p, k) <==> p == u || Better(bid, p, u));
  }

  /** The two books differ at price k in a way that shows once k is the best price left. */
  predicate Differ(s: Side, bid: bool, k: U32)
    requires k < MAX_PRICE_LEVELS == |s.hot.levels|
  {
    if k in s.cold then s.hot.levels[k] != s.cold[k] || (s.hot.levels[k] == 0 && k != Worst(bid))
    else s.hot.levels[k] > 0
  }

  /** Push the cached best above k, so that the sweep has to move it. */
  function Expose(bid: bool, k: U32): seq<Tick>
    requires k < MAX_PRICE_LEVELS && k != Top(bid)
  {
    [Wipe(bid, Up(bid, k))] + [Tick(Up(bid, k), 1, bid, false)] + Sweep(bid, k)
  }

  lemma Exposed(s: Side, bid: bool, k: U32)
    requires s.hot.Ok(bid) && k < MAX_PRICE_LEVELS && k != Top(bid) && Differ(s, bid, k)
    requires forall j <- s.cold :: !Better(bid, j, Top(bid))
    ensures CleanRun(s.hot, bid, Expose(bid, k)) && !Agree(RunSide(s, bid, Expose(bid, k)), bid)
  {
    hide RunSide, CleanRun, Sweep;
    var u := Up(bid, k);
    var a, b := Wipe(bid, u), Tick(u, 1, bid, false);
    RunOne(s, bid, a);
    var s1 := Tock(s, bid, a);
    RunOne(s1, bid, b);
    var s2 := Tock(s1, bid, b);
    RunSplit(s, bid, [a], [b]);
    RunSplit(s, bid, [a] + [b], Sweep(bid, k));
    SweepSweeps(s2, bid, k);
    PushedUp(s, bid, k);
    SweptShows(s2, RunSide(s2, bid, Sweep(bid, k)), bid, k);
  }

  lemma PushedUp(s: Side, bid: bool, k: U32)
    requires s.hot.Ok(bid) && k < MAX_PRICE_LEVELS && k != Top(bid) && Differ(s, bid, k)
    requires forall j <- s.cold :: !Better(bid, j, Top(bid))
    ensures var u := Up(bid, k); var s1 := Tock(s, bid, Wipe(bid, u)); var s2 := Tock(s1, bid, Tick(u, 1, bid, false));
      && Clean(s.hot, bid, Wipe(bid, u)) && Clean(s1.hot, bid, Tick(u, 1, bid, false))
      && Better(bid, s2.hot.best, k) && Differ(s2, bid, k)
      && forall j <- s2.cold :: !Better(bid, j, Top(bid))
  {
    var u := Up(bid, k);
    WipeEmpties(s.hot.levels[u], bid, u);
    WipeEmpties(LevelAt(s.cold, u), bid, u);
    hide Rescan;
  }

  lemma SweptShows(s: Side, r: Side, bid: bool, k: U32)
    requires s.hot.Ok(bid) && r.hot.Ok(bid) && k < MAX_PRICE_LEVELS && Swept(s, r, bid, k) && Better(bid, s.hot.best, k)
    requires Differ(s, bid, k) && forall j <- s.cold :: !Better(bid, j, Top(bid))
    ensures !Agree(r, bid)
  {
    assert r.hot.levels[k] == s.hot.levels[k];
    if k in r.cold {
      var f := First(r.cold, bid);
      assert !Better(bid, k, f);
      assert f == k;
    }
  }

  predicate OneSided(ticks: seq<Tick>, bid: bool) {
    forall i :: 0 <= i < |ticks| ==> ticks[i].isBid == bid
  }

  /** A plain continuation after which the two books show different things. */
  ghost predicate Exposes(s: Side, bid: bool, ticks: seq<Tick>)
    requires s.hot.Ok(bid)
  {
    OneSided(ticks, bid) && CleanRun(s.hot, bid, ticks) && !Agree(RunSide(s, bid, ticks), bid)
  }

  lemma {:induction false} SweepIsOneSided(bid: bool, k: U32)
    requires k < MAX_PRICE_LEVELS
    ensures OneSided(Sweep(bid, k), bid)
    decreases MAX_PRICE_LEVELS - Rank(bid, k)
  {
    if k != Top(bid) { SweepIsOneSided(bid, Up(bid, k)); }
  }

  lemma AtOnce(s: Side, bid: bool)
    requires s.hot.Ok(bid) && !Agree(s, bid)
    ensures Exposes(s, bid, [])
  {}

  lemma Later(s: Side, bid: bool, k: U32)
    requires s.hot.Ok(bid) && k < MAX_PRICE_LEVELS && k != Top(bid) && Differ(s, bid, k)
    requires forall j <- s.cold :: !Better(bid, j, Top(bid))
    ensures Exposes(s, bid, Expose(bid, k))
  {
    hide RunSide, CleanRun, Agree, Sweep;
    SweepIsOneSided(bid, k);
    Exposed(s, bid, k);
  }

  /** At the top price a difference shows at once. */
  lemma TopDiffers(s: Side, bid: bool)
    requires s.hot.Ok(bid) && forall j <- s.cold :: !Better(bid, j, Top(bid))
    requires var p := Top(bid);
      if p in s.cold then s.hot.levels[p] != s.cold[p] || s.hot.best != p else s.hot.levels[p] > 0 || s.hot.best == p
    ensures !Agree(s, bid)
  {
    var p := Top(bid);
    if p in s.cold {
      var f := First(s.cold, bid);
      assert !Better(bid, p, f);
      assert f == p;
    }
  }

  /** An entry beyond the array: shown at once by bids, and by asks once everything else is gone. */
  lemma BeyondShows(s: Side, bid: bool, k: U32)
    requires s.hot.Ok(bid) && k in s.cold && k >= MAX_PRICE_LEVELS
    ensures exists ticks :: Exposes(s, bid, ticks)
  {
    if bid {
      var f := First(s.cold, bid);
      assert !Better(bid, k, f);
      AtOnce(s, bid);
    } else {
      BeyondShowsLast(s, k);
    }
  }

  function WipeAll(bid: bool): seq<Tick> {
    Sweep(bid, Worst(bid)) + [Wipe(bid, Worst(bid))]
  }

  lemma BeyondShowsLast(s: Side, k: U32)
    requires s.hot.Ok(false) && k in s.cold && k >= MAX_PRICE_LEVELS
    ensures Exposes(s, false, WipeAll(false))
  {
    hide RunSide, CleanRun, Sweep, Rescan;
    var worst := Worst(false);
    var last := Wipe(false, worst);
    SweepSweeps(s, false, worst);
    SweepIsOneSided(false, worst);
    var m := RunSide(s, false, Sweep(false, worst));
    RunSplit(s, false, Sweep(false, worst), [last]);
    RunOne(m, false, last);
    WipeEmpties(LevelAt(m.cold, worst), false, worst);
    var r := Tock(m, false, last);
    assert k in m.cold && r.cold == m.cold - {worst} && k in r.cold;
    assert First(r.cold, false) >= MAX_PRICE_LEVELS;
  }

  /** After a tick that is not good some plain continuation tells the two books apart. */
  lemma BadTickShows(s: Side, bid: bool, t: Tick)
    requires Coupled(s, bid) && !Good(s, bid, t)
    ensures exists ticks :: Exposes(Tock(s, bid, t), bid, ticks)
  {
    hide Exposes, Agree, RunSide, CleanRun, Rescan, Sweep;
    var r, k := Tock(s, bid, t), Key(t);
    if k >= MAX_PRICE_LEVELS {
      assert k in r.cold;
      BeyondShows(r, bid, k);
    } else {
      assert s.hot.levels[k] == LevelAt(s.cold, k);
      BadTickDiffers(s, bid, t);
      if k == Top(bid) {
        TopDiffers(r, bid);
        AtOnce(r, bid);
      } else {
        Later(r, bid, k);
      }
    }
  }

  lemma BadTickDiffers(s: Side, bid: bool, t: Tick)
    requires Coupled(s, bid) && !Good(s, bid, t) && Key(t) < MAX_PRICE_LEVELS
    ensures var r, k := Tock(s, bid, t), Key(t);
      && (forall j <- r.cold :: !Better(bid, j, Top(bid)))
      && (k != Top(bid) ==> Differ(r, bid, k))
      && (k == Top(bid) && k in r.cold ==> r.hot.levels[k] != r.cold[k] || r.hot.best != k)
      && (k == Top(bid) && k !in r.cold ==> r.hot.levels[k] > 0 || r.hot.best == k)
  {
    hide Rescan;
    var k := Key(t);
    assert s.hot.levels[k] == LevelAt(s.cold, k);
    assert t.price < MAX_PRICE_LEVELS ==> k == t.price;
    if !t.isTrade && t.quantity > 0 { AddChanges(LevelAt(s.cold, k), t); }
  }

  lemma AddChanges(level: U32, t: Tick)
    requires !t.isTrade && t.quantity > 0
    ensures After(level, t) != level
  {}

  /** Exactly the good ticks keep every plain continuation in agreement. */
  lemma TickAgreesIff(s: Side, bid: bool, t: Tick)
    requires Coupled(s, bid)
    ensures Good(s, bid, t) <==> forall ticks :: !Exposes(Tock(s, bid, t), bid, ticks)
  {
    hide Exposes, Good;
    if Good(s, bid, t) {
      GoodKeepsCoupled(s, bid, t);
      forall ticks ensures !Exposes(Tock(s, bid, t), bid, ticks) { NothingExposed(Tock(s, bid, t), bid, ticks); }
    } else {
      BadTickShows(s, bid, t);
    }
  }

  lemma {:induction false} CleanKeepsCoupled(s: Side, bid: bool, ticks: seq<Tick>)
    requires Coupled(s, bid) && CleanRun(s.hot, bid, ticks)
    ensures Coupled(RunSide(s, bid, ticks), bid)
    decreases |ticks|
  {
    if ticks != [] {
      hide Coupled;
      assert Good(s, bid, ticks[0]);
      GoodKeepsCoupled(s, bid, ticks[0]);
      CleanKeepsCoupled(Tock(s, bid, ticks[0]), bid, ticks[1..]);
    }
  }

  lemma NothingExposed(s: Side, bid: bool, ticks: seq<Tick>)
    requires Coupled(s, bid)
    ensures s.hot.Ok(bid) && !Exposes(s, bid, ticks)
  {
    hide RunSide, CleanRun, Agree;
    if CleanRun(s.hot, bid, ticks) {
      CleanKeepsCoupled(s, bid, ticks);
      CoupledAgree(RunSide(s, bid, ticks), bid);
    }
  }
}
