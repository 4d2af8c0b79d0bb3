/** One shard's MemoryPool (memory_pool.h:34-113) as the object a worker and the engine call, with its recycle
    queues as the FIFOs that lock_free_queue.h implements. */
module SlotPool {
  import opened SlotProtocol

  predicate Distinct(s: seq<nat>) {
    forall i, j :: 0 <= i < j < |s| ==> s[i] != s[j]
  }

  /** A worker's slice: slots below its mark are in use or waiting to be reused, never both and never twice. */
  ghost predicate SliceOk(c: Config, w: nat, mark: nat, recycled: seq<nat>, live: set<nat>)
    requires c.Valid()
  {
    && c.First(w) <= mark <= c.High(w) && Distinct(recycled)
    && (forall slot <- recycled :: c.First(w) <= slot < mark && slot !in live)
    && (forall slot :: c.First(w) <= slot < mark && slot !in live ==> slot in recycled)
    && (forall slot <- live :: c.Low(w) <= slot < c.High(w) ==> c.First(w) <= slot < mark)
  }

  /** A slot is of one slice only, so taking or returning it leaves the other slices alone. */
  lemma OtherSlice(c: Config, w: nat, v: nat, slot: nat, mark: nat, recycled: seq<nat>, live: set<nat>)
    requires c.Valid() && v != w && c.Low(w) <= slot < c.High(w)
    ensures SliceOk(c, v, mark, recycled, live) <==> SliceOk(c, v, mark, recycled, live + {slot})
    ensures SliceOk(c, v, mark, recycled, live) ==> SliceOk(c, v, mark, recycled, live - {slot})
  {
    OwnerOfSlice(c, w, slot);
    OwnerOfSlice(c, v, slot);
    FirstAtLow(c, v);
    hide Config.Low, Config.High, Config.First;
  }

  lemma FirstAtLow(c: Config, w: nat)
    requires c.Valid()
    ensures c.Low(w) <= c.First(w) <= c.High(w) && c.First(w) > 0
  {
    SlicePositive(c);
    if w > 0 { assert w * c.Slice() >= c.Slice(); }
  }

  /** A slice can issue nothing more exactly when every slot of it is in use. */
  lemma AllInUse(c: Config, w: nat, mark: nat, recycled: seq<nat>, live: set<nat>)
    requires c.Valid() && SliceOk(c, w, mark, recycled, live)
    ensures recycled == [] && mark >= c.High(w) <==> forall slot :: c.First(w) <= slot < c.High(w) ==> slot in live
  {
    FirstAtLow(c, w);
    hide Config.Low, Config.High, Config.First;
    if recycled != [] { assert recycled[0] in recycled; } else if mark < c.High(w) { assert mark !in live; }
  }

  lemma NextSlice(c: Config, w: nat)
    requires c.Valid()
    ensures c.High(w) == c.Low(w + 1) && c.Low(w) <= c.First(w) <= c.High(w)
    ensures c.First(w) == c.Low(w) + (if w == 0 then 1 else 0)
  {
    FirstAtLow(c, w);
  }

  lemma MarkInSlice(c: Config, w: nat, mark: nat, recycled: seq<nat>, live: set<nat>)
    requires c.Valid() && SliceOk(c, w, mark, recycled, live)
    ensures c.First(w) <= mark <= c.High(w)
  {}

  lemma Reuse(c: Config, w: nat, mark: nat, recycled: seq<nat>, live: set<nat>)
    requires c.Valid() && SliceOk(c, w, mark, recycled, live) && recycled != []
    ensures SliceOk(c, w, mark, recycled[1..], live + {recycled[0]})
    ensures c.First(w) <= recycled[0] < c.High(w) && recycled[0] !in live
  {
    FirstAtLow(c, w);
    hide Config.Low, Config.High, Config.First;
    assert recycled[0] in recycled;
    forall slot | slot in recycled[1..] ensures slot in recycled && slot != recycled[0] {
      var i :| 0 <= i < |recycled| - 1 && recycled[1..][i] == slot;
      assert recycled[i + 1] == slot;
    }
    forall slot | slot in recycled && slot != recycled[0] ensures slot in recycled[1..] {
      var i :| 0 <= i < |recycled| && recycled[i] == slot;
      assert recycled[1..][i - 1] == slot;
    }
  }

  lemma Issue(c: Config, w: nat, mark: nat, live: set<nat>)
    requires c.Valid() && SliceOk(c, w, mark, [], live) && mark < c.High(w)
    ensures SliceOk(c, w, mark + 1, [], live + {mark})
    ensures c.First(w) <= mark && mark !in live
  {
    FirstAtLow(c, w);
    hide Config.Low, Config.High, Config.First;
  }

  lemma Return(c: Config, w: nat, mark: nat, recycled: seq<nat>, live: set<nat>, slot: nat)
    requires c.Valid() && SliceOk(c, w, mark, recycled, live) && slot in live && c.Low(w) <= slot < c.High(w)
    ensures SliceOk(c, w, mark, recycled + [slot], live - {slot})
  {
    FirstAtLow(c, w);
    hide Config.Low, Config.High, Config.First;
  }

  /** Slots ever issued by the first n workers, whose marks stand as given. */
  ghost function Issued(c: Config, marks: seq<nat>, n: nat): set<nat>
    requires c.Valid() && n <= |marks|
  {
    if n == 0 then {} else Issued(c, marks, n - 1) + Range(c.First(n - 1), marks[n - 1])
  }

  predicate Below(slots: set<nat>, bound: nat) {
    forall slot <- slots :: slot < bound
  }

  lemma {:induction false} IssuedAt(c: Config, marks: seq<nat>, n: nat, slot: nat)
    requires c.Valid() && n <= |marks|
    ensures slot in Issued(c, marks, n) <==> exists w :: 0 <= w < n && c.First(w) <= slot < marks[w]
  {
    hide Config.First;
    if n > 0 { IssuedAt(c, marks, n - 1, slot); }
  }

  /** In one slice: issued, and not waiting in the queue, means in use. */
  lemma IssuedInSlice(c: Config, w: nat, mark: nat, recycled: seq<nat>, live: set<nat>, slot: nat)
    requires c.Valid() && SliceOk(c, w, mark, recycled, live) && c.Owner(slot) == w
    ensures c.First(w) <= slot < mark <==> slot in live || slot in recycled
  {
    OwnerOfSlice(c, w, slot);
    FirstAtLow(c, w);
    hide Config.Low, Config.High, Config.First, Config.Owner;
  }

  lemma IssuedNone(c: Config, marks: seq<nat>)
    requires c.Valid()
    ensures Issued(c, marks, 0) == {}
  {}

  lemma IssuedNext(c: Config, marks: seq<nat>, n: nat)
    requires c.Valid() && n < |marks| && c.First(n) <= marks[n] <= c.High(n)
    requires Below(Issued(c, marks, n), c.Low(n))
    ensures |Issued(c, marks, n + 1)| == |Issued(c, marks, n)| + (marks[n] - c.First(n))
    ensures Below(Issued(c, marks, n + 1), c.Low(n + 1))
  {
    NextSlice(c, n);
    RangeSize(c.First(n), marks[n]);
    hide Config.Low, Config.High, Config.First;
    assert Issued(c, marks, n) !! Range(c.First(n), marks[n]);
  }

  class MemoryPool {
    const config: Config
    const highWater: array<nat>
    const recycle: array<seq<nat>>
    ghost var live: set<nat>

    ghost predicate Valid()
      reads this, highWater, recycle
    {
      && config.Valid() && highWater.Length == config.workers == recycle.Length
      && (forall w :: 0 <= w < config.workers ==> SliceOk(config, w, highWater[w], recycle[w], live))
      && (forall slot <- live :: config.Owner(slot) < config.workers)
    }

    constructor (c: Config)
      requires c.Valid()
      ensures Valid() && config == c && live == {} && fresh(highWater) && fresh(recycle)
    {
      config, live := c, {};
      highWater := new nat[c.workers](w requires 0 <= w => c.First(w));
      recycle := new seq<nat>[c.workers](w => []);
      new;
      forall w | 0 <= w < c.workers ensures c.First(w) <= c.High(w) {
        SlicePositive(c);
      }
    }

    /** A slot of the worker's own slice that nobody holds; none exactly when the whole slice is in use. */
    method Allocate(w: nat) returns (r: Maybe<nat>)
      requires Valid() && w < config.workers
      modifies this`live, highWater, recycle
      ensures Valid()
      ensures r.Just? ==> r.value != 0 && config.First(w) <= r.value < config.High(w) && r.value !in old(live)
      ensures live == old(live) + (if r.Just? then {r.value} else {})
      ensures old(recycle[w]) != [] ==> r == Just(old(recycle[w])[0])
      ensures r.Nothing? <==> forall slot :: config.First(w) <= slot < config.High(w) ==> slot in old(live)
      ensures TakeSlot(config, Lane(old(highWater[w]), old(recycle[w]), []), w)
        == if r.Nothing? then Nothing else Just((r.value, Lane(highWater[w], recycle[w], [])))
      ensures forall v :: 0 <= v < config.workers && v != w ==>
        highWater[v] == old(highWater[v]) && recycle[v] == old(recycle[v])
    {
      hide SliceOk, Config.Low, Config.High, Config.First, Config.Owner;
      var index;
      FirstAtLow(config, w);
      AllInUse(config, w, highWater[w], recycle[w], live);
      if recycle[w] != [] {
        Reuse(config, w, highWater[w], recycle[w], live);
        index := recycle[w][0];
        recycle[w] := recycle[w][1..];
      } else {
        var next := highWater[w];
        if next < config.High(w) {
          Issue(config, w, next, live);
          highWater[w] := next + 1;
          index := next;
        } else {
          return Nothing;
        }
      }
      OwnerOfSlice(config, w, index);
      forall v | 0 <= v < config.workers && v != w
        ensures SliceOk(config, v, highWater[v], recycle[v], live + {index})
      {
        OtherSlice(config, w, v, index, highWater[v], recycle[v], live);
      }
      live := live + {index};
      r := Just(index);
    }

    /** The slot goes to the back of its owner's queue, whoever returns it. */
    method Deallocate(slot: nat)
      requires Valid() && slot in live
      modifies this`live, recycle
      ensures Valid() && live == old(live) - {slot}
      ensures recycle[..] == old(recycle[..])[config.Owner(slot) := old(recycle[config.Owner(slot)]) + [slot]]
    {
      hide SliceOk, Config.Low, Config.High, Config.First, Config.Owner;
      var w := config.Owner(slot);
      OwnerOfSlice(config, w, slot);
      Return(config, w, highWater[w], recycle[w], live, slot);
      recycle[w] := recycle[w] + [slot];
      forall v | 0 <= v < config.workers && v != w ensures SliceOk(config, v, highWater[v], recycle[v], live - {slot}) {
        OtherSlice(config, w, v, slot, highWater[v], recycle[v], live);
      }
      live := live - {slot};
    }

    /** Issued slots are the ones in use and the ones queued for reuse with their owner. */
    lemma IssuedIsLiveOrQueued(slot: nat)
      requires Valid()
      ensures slot in Issued(config, highWater[..], config.workers) <==>
        slot in live || (config.Owner(slot) < config.workers && slot in recycle[config.Owner(slot)])
    {
      var v := config.Owner(slot);
      IssuedAt(config, highWater[..], config.workers, slot);
      forall w | 0 <= w < config.workers && config.First(w) <= slot < highWater[w] ensures w == v {
        MarkInSlice(config, w, highWater[w], recycle[w], live);
        FirstAtLow(config, w);
        OwnerOfSlice(config, w, slot);
      }
      hide Config.Low, Config.High, Config.First, Config.Owner;
      if v < config.workers { IssuedInSlice(config, v, highWater[v], recycle[v], live, slot); }
    }

    /** The high-water statistic: the reserved slot 0, plus every slot ever issued. */
    method SlotsUsed() returns (total: nat)
      requires Valid()
      ensures total == 1 + |Issued(config, highWater[..], config.workers)|
    {
      hide SliceOk, Config.Low, Config.High, Config.First, Config.Owner, Issued;
      total := 0;
      ghost var marks := highWater[..];
      IssuedNone(config, marks);
      for i := 0 to config.workers
        invariant marks == highWater[..] && total == (if i == 0 then 0 else 1) + |Issued(config, marks, i)|
        invariant Below(Issued(config, marks, i), config.Low(i))
      {
        MarkInSlice(config, i, marks[i], recycle[i], live);
        NextSlice(config, i);
        IssuedNext(config, marks, i);
        total := total + (highWater[i] - config.Low(i));
      }
    }
  }
}
